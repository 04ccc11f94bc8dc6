/** Is an owner listed?  The scan that parses every line, and the one that
    searches the mapped file for the text of the entry (lplib/sender.c). */
module OwnersLookup {
  import opened Text
  import opened TextFiles
  import opened LineFiles
  import opened Buffers
  import opened AddressText
  import opened Owners
  import opened OwnersLaws

  ghost predicate IsEntry(l: string, owner: string, list: string, tail: string)
  {
    && PlainAddress(owner) && PlainWord(list)
    && (tail == "" || tail[0] == BLANK)
    && l == owner + [BLANK] + list + tail
  }

  predicate AllBlank(l: string) { forall i :: 0 <= i < |l| ==> l[i] == BLANK }

  /** The lines proc_owner and SET PREFERENCE leave, and comments. */
  ghost predicate Canonical(l: string)
  {
    || AllBlank(l)
    || l[0] == '#'
    || exists owner, list, tail :: IsEntry(l, owner, list, tail)
  }

  ghost predicate CanonicalFile(ls: seq<string>)
  {
    NoLF(ls) && forall i :: 0 <= i < |ls| ==> EOS !in ls[i] && Canonical(ls[i])
  }

  ghost predicate Listed(ls: seq<string>, key: Key)
  {
    exists i :: 0 <= i < |ls| && KeyOf(ls[i]) == Some(key)
  }

  // ---------------------------------------------------------------- the slow scan

  /** get_option_args with an address, then with a word, on any canonical line. */
  method ReadsAs(line: string, key: Key) returns (hit: bool)
    requires line != "" && line[|line| - 1] == LF && Canonical(line[..|line| - 1])
    ensures hit <==> KeyOf(line[..|line| - 1]) == Some(key)
  {
    hide AddressOf, WordOf;
    var l := line[..|line| - 1];
    assert line == l + [LF];
    var ok, owner := ExtractAddress2(line);
    var s := SkipSpaces(line);
    if owner != "" {
      s := s[|owner|..];
    }
    var list := WordOf(s);
    hit := owner != "" && owner[0] != '#' && Upcase(owner) == key.owner && Upcase(list) == key.list;
    if AllBlank(l) {
      BlankRead(l);
    } else {
      CanonicalStart(l);
      NoLeadingSpace(line);
    }
  }

  lemma {:induction false} BlankRead(l: string)
    requires AllBlank(l)
    ensures SkipSpaces(l + [LF]) == "" && AddressOf(l + [LF]) == "" && KeyOf(l) == None
  {
    hide KeyOf;
    if l == "" {
      CommentHasNoKey(l);
      assert (l + [LF])[1..] == "";
    } else {
      BlankHasNoKey(l);
      assert (l + [LF])[1..] == l[1..] + [LF];
      BlankRead(l[1..]);
    }
  }

  lemma CanonicalStart(l: string)
    requires Canonical(l) && !AllBlank(l)
    ensures l != "" && !IsSpace(l[0])
  {
    if l[0] != '#' {
      var owner, list, tail :| IsEntry(l, owner, list, tail);
      assert PlainChar(owner[0]);
    }
  }


  /** owner_listed without the array of owners and without the mapped lookup */
  method OwnerListed(file: LineFile, owner: string, list: string) returns (r: bool)
    requires file.Valid() && CanonicalFile(file.lines)
    ensures r <==> Listed(file.lines, KeyFor(owner, list))
  {
    hide KeyOf, Flatten, Offset, Canonical;
    var key := KeyFor(owner, list);
    var pos, eof := 0, false;
    ghost var i := 0;
    OffsetZero(file.lines);
    while !eof
      invariant i <= |file.lines| && pos == Offset(file.lines, i) && (eof ==> i == |file.lines|)
      invariant forall j :: 0 <= j < i ==> KeyOf(file.lines[j]) != Some(key)
      decreases |file.lines| - i, !eof
    {
      var line, next := file.ReadLine(pos, i);
      if line == "" {
        eof := true;
      } else {
        assert line[..|line| - 1] == file.lines[i];
        var hit := ReadsAs(line, key);
        if hit {
          return true;
        }
        pos, i := next, i + 1;
      }
    }
    return false;
  }

  // ---------------------------------------------------------------- the text of an entry

  /** In an upper-case line u: is it for the entry with text k? */
  predicate Hit(u: string, k: string) { StartsWith(u, k + [BLANK]) || u == k }

  function EntryText(owner: string, list: string): string { Upcase(owner + [BLANK] + list) }

  lemma UpcaseConcat(a: string, b: string)
    ensures Upcase(a + b) == Upcase(a) + Upcase(b)
  {
  }

  lemma UpperKeeps(c: char)
    ensures IsSpace(Upper(c)) <==> IsSpace(c)
    ensures Upper(c) == BLANK <==> c == BLANK
    ensures Upper(c) == LF <==> c == LF
    ensures Upper(c) == '#' <==> c == '#'
    ensures Upper(c) == EOS <==> c == EOS
  {
  }

  lemma UpcaseNo(s: string, c: char)
    requires c !in s && c in [BLANK, LF, EOS]
    ensures c !in Upcase(s)
  {
    forall i | 0 <= i < |s| ensures Upcase(s)[i] != c {
      UpperKeeps(s[i]);
    }
  }

  lemma PlainNoBlank(owner: string, list: string)
    requires PlainAddress(owner) && PlainWord(list)
    ensures BLANK !in owner && BLANK !in list && LF !in owner && LF !in list && EOS !in owner && EOS !in list
    ensures owner != "" && owner[0] != '#'
  {
    assert forall i :: 0 <= i < |owner| ==> PlainChar(owner[i]);
  }

  /** The first word of a text is determined by the text. */
  lemma SplitFirst(a: string, v: string, c: string, d: string)
    requires BLANK !in a && BLANK !in c && StartsWith(a + [BLANK] + v, c + [BLANK] + d)
    ensures a == c && StartsWith(v, d)
  {
    var u, k := a + [BLANK] + v, c + [BLANK] + d;
    IndexOfIn(a, BLANK, v);
    assert u[..|k|] == k;
    assert forall j :: 0 <= j < |c| ==> u[j] == k[j] == c[j];
    assert u[|c|] == k[|c|];
    IndexOfUnique(u, BLANK, |c|);
    assert a == u[..|a|] == k[..|c|] == c;
    assert v == u[|a| + 1..];
    assert d == k[|c| + 1..];
    assert v[..|d|] == u[..|k|][|a| + 1..];
  }

  lemma SplitSecond(b: string, t: string, d: string)
    requires BLANK !in b && BLANK !in d && (t == "" || t[0] == BLANK)
    requires StartsWith(b + t, d + [BLANK]) || b + t == d
    ensures b == d
  {
    var v := b + t;
    assert t != "" ==> v[|b|] == BLANK;
    if v == d {
      assert t == "";
    } else {
      assert t != "" by {
        assert v[..|d| + 1][|d|] == BLANK;
      }
      assert v == b + [BLANK] + t[1..];
      SplitFirst(b, t[1..], d, "");
    }
  }

  /** Two words and what follows are determined by the text. */
  lemma SplitWords(a: string, b: string, t: string, c: string, d: string)
    requires BLANK !in a && BLANK !in b && BLANK !in c && BLANK !in d
    requires t == "" || t[0] == BLANK
    ensures Hit(a + [BLANK] + b + t, c + [BLANK] + d) <==> a == c && b == d
  {
    var u, v, k := a + [BLANK] + b + t, b + t, c + [BLANK] + d;
    assert u == a + [BLANK] + v;
    if u == k {
      assert u[..|k|] == k;
      SplitFirst(a, v, c, d);
      assert v == d;
      SplitSecond(b, t, d);
    } else if StartsWith(u, k + [BLANK]) {
      assert k + [BLANK] == c + [BLANK] + (d + [BLANK]);
      SplitFirst(a, v, c, d + [BLANK]);
      SplitSecond(b, t, d);
    } else if t != "" {
      SplitWordsBack(a, b, t);
    }
  }

  lemma SplitWordsBack(a: string, b: string, t: string)
    requires t != "" && t[0] == BLANK
    ensures StartsWith(a + [BLANK] + b + t, a + [BLANK] + b + [BLANK])
  {
  }

  /** On a canonical line, the text of the entry is there exactly when the parsed
      line is for that owner and list. */
  lemma HitIsKey(l: string, owner: string, list: string)
    requires Canonical(l) && PlainAddress(owner) && PlainWord(list)
    ensures Hit(Upcase(l), EntryText(owner, list)) <==> KeyOf(l) == Some(Key(Upcase(owner), Upcase(list)))
  {
    hide KeyOf, AddressOf;
    var k := EntryText(owner, list);
    PlainNoBlank(owner, list);
    assert k[0] == Upper(owner[0]);
    UpperKeeps(owner[0]);
    if AllBlank(l) {
      BlankRead(l);
      if l != "" {
        assert Upcase(l)[0] == BLANK;
      }
      assert k[0] != BLANK;
    } else if l[0] == '#' {
      CommentHasNoKey(l);
      assert Upcase(l)[0] == '#';
    } else {
      var o, w, tail :| IsEntry(l, o, w, tail);
      EntryHit(l, o, w, tail, owner, list);
    }
  }

  lemma EntryHit(l: string, o: string, w: string, tail: string, owner: string, list: string)
    requires IsEntry(l, o, w, tail) && PlainAddress(owner) && PlainWord(list)
    ensures Hit(Upcase(l), EntryText(owner, list)) <==> Upcase(o) == Upcase(owner) && Upcase(w) == Upcase(list)
    ensures KeyOf(l) == Some(Key(Upcase(o), Upcase(w)))
  {
    hide PlainAddress, PlainWord, AddressOf, WordOf, Hit, Upcase;
    UpcaseEntry(o, w, tail);
    UpcaseEntry(owner, list, "");
    assert owner + [BLANK] + list + "" == owner + [BLANK] + list;
    PlainNoBlank(owner, list);
    PlainNoBlank(o, w);
    UpcaseNo(o, BLANK);
    UpcaseNo(w, BLANK);
    UpcaseNo(owner, BLANK);
    UpcaseNo(list, BLANK);
    UpcaseTail(tail);
    SplitWords(Upcase(o), Upcase(w), Upcase(tail), Upcase(owner), Upcase(list));
    EntryKey(l, o, w, tail);
  }

  lemma UpcaseTail(tail: string)
    requires tail == "" || tail[0] == BLANK
    ensures Upcase(tail) == "" || Upcase(tail)[0] == BLANK
  {
  }

  lemma UpcaseEntry(o: string, w: string, tail: string)
    ensures Upcase(o + [BLANK] + w + tail) == Upcase(o) + [BLANK] + Upcase(w) + Upcase(tail)
    ensures tail == "" ==> Upcase(o + [BLANK] + w + tail) == Upcase(o) + [BLANK] + Upcase(w)
  {
  }

  lemma EntryKey(l: string, o: string, w: string, tail: string)
    requires IsEntry(l, o, w, tail)
    ensures KeyOf(l) == Some(Key(Upcase(o), Upcase(w)))
  {
    hide AddressOf, WordOf, SkipSpaces, Upcase;
    var line := l + [LF];
    var rest := [BLANK] + w + (tail + [LF]);
    assert line == o + rest;
    PlainAddressRead(o, rest);
    assert line[|o|..] == rest;
    PlainWordRead(w, tail + [LF]);
    PlainNoBlank(o, w);
  }

  /** The entry of the text in a file. */
  ghost predicate SomeHit(us: seq<string>, k: string) { exists i :: 0 <= i < |us| && Hit(us[i], k) }

  function UpcaseLines(ls: seq<string>): (us: seq<string>)
    ensures |us| == |ls| && forall i :: 0 <= i < |us| ==> us[i] == Upcase(ls[i])
  {
    seq(|ls|, i requires 0 <= i < |ls| => Upcase(ls[i]))
  }

  lemma SomeHitIsListed(ls: seq<string>, owner: string, list: string)
    requires CanonicalFile(ls) && PlainAddress(owner) && PlainWord(list)
    ensures SomeHit(UpcaseLines(ls), EntryText(owner, list)) <==> Listed(ls, Key(Upcase(owner), Upcase(list)))
  {
    hide KeyOf, Hit, Upcase, Canonical;
    var us, k, key := UpcaseLines(ls), EntryText(owner, list), Key(Upcase(owner), Upcase(list));
    forall i | 0 <= i < |ls| ensures Hit(us[i], k) <==> KeyOf(ls[i]) == Some(key) {
      HitIsKey(ls[i], owner, list);
    }
  }

  // ---------------------------------------------------------------- the mapped bytes

  lemma {:induction false} FlattenIsJoin(ls: seq<string>)
    requires ls != []
    ensures Flatten(ls) == Join(ls) + [LF]
  {
    if |ls| == 1 {
      FlattenOne(ls[0]);
      assert ls == [ls[0]];
    } else {
      FlattenIsJoin(ls[1..]);
    }
  }

  lemma {:induction false} UpcaseJoin(ls: seq<string>)
    requires ls != []
    ensures Upcase(Join(ls)) == Join(UpcaseLines(ls))
  {
    if |ls| > 1 {
      UpcaseJoin(ls[1..]);
      assert UpcaseLines(ls)[1..] == UpcaseLines(ls[1..]);
      UpcaseConcat(ls[0] + [LF], Join(ls[1..]));
      UpcaseConcat(ls[0], [LF]);
      assert Upcase([LF]) == [LF];
    }
  }

  /** What follows the start of a line. */
  lemma LineStarts(u: string, rest: string, k: string)
    requires LF !in u && LF !in k && (rest == "" || rest[0] == LF)
    ensures StartsWith(u + rest, k + [BLANK]) <==> StartsWith(u, k + [BLANK])
    ensures StartsWith(u + rest, k + [LF]) <==> rest != "" && u == k
    ensures u + rest == k ==> rest == "" && u == k
  {
    var t := u + rest;
    assert rest != "" ==> t[|u|] == LF;
    if StartsWith(t, k + [BLANK]) {
      assert forall j :: 0 <= j <= |k| ==> t[j] == (k + [BLANK])[j];
      assert |k| + 1 <= |u|;
      assert u[..|k| + 1] == t[..|k| + 1];
    }
    if StartsWith(u, k + [BLANK]) {
      assert t[..|k| + 1] == u[..|k| + 1];
    }
    if StartsWith(t, k + [LF]) {
      assert forall j :: 0 <= j <= |k| ==> t[j] == (k + [LF])[j];
      assert t[|k|] == LF;
      assert forall j :: 0 <= j < |k| ==> t[j] != LF;
      assert |u| == |k|;
      assert u == t[..|u|];
    }
    if rest != "" && u == k {
      assert t[..|k| + 1] == k + [LF];
    }
  }

  // ---------------------------------------------------------------- the mapped lookup

  ghost function LineAt(us: seq<string>, i: nat): nat
    requires i < |us|
  {
    |JoinBefore(us, i)|
  }

  lemma AtLine(us: seq<string>, i: nat)
    requires NoLF(us) && i < |us|
    ensures var t := Join(us); var p := LineAt(us, i);
            && p <= |t| && t[p..] == us[i] + JoinAfter(us, i)
            && IndexOf(t[p..], LF) == |us[i]|
            && (i == 0 ==> p == 0)
            && (i > 0 ==> 0 < p && t[p - 1] == LF && t[p - 1..] == [LF] + t[p..])
  {
    hide Join, JoinAfter;
    JoinAround(us, i);
    AfterLine(us, i);
    assert i > 0 ==> JoinBefore(us, i) == Join(us[..i]) + [LF];
    Pieces(JoinBefore(us, i), us[i], JoinAfter(us, i));
  }

  lemma Pieces(a: string, u: string, r: string)
    requires LF !in u && (r == "" || r[0] == LF)
    ensures var t, p := a + u + r, |a|;
            && t[p..] == u + r && IndexOf(t[p..], LF) == |u|
            && (a != "" ==> t[p - 1] == a[|a| - 1] && t[p - 1..] == [a[|a| - 1]] + t[p..])
  {
    assert (a + u + r)[|a|..] == u + r;
    if r == "" {
      assert u + r == u;
      IndexOfAbsent(u, LF);
    } else {
      assert u + r == u + [LF] + r[1..];
      IndexOfIn(u, LF, r[1..]);
    }
  }

  lemma {:induction false} NextLine(us: seq<string>, i: nat)
    requires i + 1 < |us|
    ensures LineAt(us, i + 1) == LineAt(us, i) + |us[i]| + 1
  {
    assert us[..i + 1] == us[..i] + [us[i]];
    if i > 0 {
      JoinAppend(us[..i], [us[i]]);
    }
  }

  lemma AfterLine(us: seq<string>, i: nat)
    requires i < |us|
    ensures JoinAfter(us, i) == "" <==> i + 1 == |us|
    ensures JoinAfter(us, i) != "" ==> JoinAfter(us, i)[0] == LF
  {
  }

  /** Comparing at the newline in front of line i. */
  lemma RestHit(us: seq<string>, i: nat, k: string)
    requires NoLF(us) && LF !in k && 0 < i < |us|
    ensures var t := Join(us); var q := LineAt(us, i) - 1;
            && 0 <= q < |t|
            && (OccursAt(t, q, [LF] + k + [BLANK]) <==> StartsWith(us[i], k + [BLANK]))
            && (OccursAt(t, q, [LF] + k + [LF]) <==> us[i] == k && i + 1 < |us|)
            && (k != "" && Hit(us[i], k) ==> q + |k| < |t| && t[q + 1] == k[0])
  {
    hide Join, OccursAt, StartsWith, JoinAfter;
    AtLine(us, i);
    if k != "" && Hit(us[i], k) {
      HitStart(Join(us), LineAt(us, i), us[i], JoinAfter(us, i), k);
    }
    AfterLine(us, i);
    var t, q, rest := Join(us), LineAt(us, i) - 1, JoinAfter(us, i);
    LineStarts(us[i], rest, k);
    AfterNewline(t, q, k + [BLANK]);
    AfterNewline(t, q, k + [LF]);
    assert [LF] + (k + [BLANK]) == [LF] + k + [BLANK];
    assert [LF] + (k + [LF]) == [LF] + k + [LF];
  }

  lemma HitStart(t: string, p: nat, u: string, rest: string, k: string)
    requires p <= |t| && t[p..] == u + rest && Hit(u, k) && k != ""
    ensures p + |k| <= |t| && t[p] == k[0]
  {
    assert u[..|k|] == k by {
      if u != k {
        assert u[..|k|] == u[..|k| + 1][..|k|];
      }
    }
    assert t[p..][0] == u[0] == u[..|k|][0];
  }

  lemma AfterNewline(t: string, q: nat, w: string)
    requires q < |t| && t[q] == LF
    ensures OccursAt(t, q, [LF] + w) <==> StartsWith(t[q + 1..], w)
  {
    hide OccursAt;
    OccursInRest(t, q, [LF] + w);
    assert t[q..] == [LF] + t[q + 1..];
    if StartsWith(t[q + 1..], w) {
      assert t[q..][..|w| + 1] == [LF] + w;
    }
    if StartsWith(t[q..], [LF] + w) {
      var v := [LF] + t[q + 1..];
      assert v[..|w| + 1] == [LF] + w;
      assert ([LF] + w)[1..] == w;
      assert v[..|w| + 1][1..] == v[1..][..|w|];
    }
  }

  lemma FirstHit(us: seq<string>, k: string)
    requires NoLF(us) && LF !in k && us != []
    ensures var t := Join(us);
            && (OccursAt(t, 0, k + [BLANK]) <==> StartsWith(us[0], k + [BLANK]))
            && (OccursAt(t, 0, k + [LF]) <==> us[0] == k && 1 < |us|)
            && (t == k <==> us[0] == k && 1 == |us|)
  {
    hide Join, OccursAt, StartsWith, JoinAfter;
    AtLine(us, 0);
    AfterLine(us, 0);
    var t, rest := Join(us), JoinAfter(us, 0);
    assert t[0..] == t;
    LineStarts(us[0], rest, k);
    OccursInRest(t, 0, k + [BLANK]);
    OccursInRest(t, 0, k + [LF]);
  }

  /** strncmp(a + i, w, n) == 0 for an n past the end of the string at a. */
  method SameString(a: array<char>, i: nat, w: string, n: nat, ghost t: string) returns (b: bool)
    requires Denotes(a, 0, t) && i <= |t| && EOS !in w && n > |t| - i
    ensures b <==> t[i..] == w
  {
    var j := 0;
    while j < n && j < |w| && a[i + j] == w[j]
      invariant 0 <= j <= |w| && i + j <= |t|
      invariant forall k :: 0 <= k < j ==> t[i + k] == w[k]
    {
      j := j + 1;
    }
    b := j == |w| && a[i + j] == EOS;
    if b {
      if i + j < |t| {
        NotEosInside(a, t, i + j);
      }
    }
  }

  /** upcase */
  method UpcaseBuffer(a: array<char>, ghost t: string)
    requires Denotes(a, 0, t)
    modifies a
    ensures Denotes(a, 0, Upcase(t))
  {
    var i := 0;
    while a[i] != EOS
      invariant 0 <= i <= |t| < a.Length && a[|t|] == EOS
      invariant forall j :: 0 <= j < i ==> a[j] == Upper(t[j])
      invariant forall j :: i <= j < |t| ==> a[j] == t[j]
      invariant forall j :: 0 <= j < |t| ==> t[j] != EOS
      decreases |t| - i
    {
      a[i] := Upper(a[i]);
      i := i + 1;
    }
    forall j | 0 <= j < |t| ensures a[0 + j] == Upcase(t)[j] != EOS {
      UpperKeeps(t[j]);
    }
  }

  /** The file in memory, its last byte overwritten, in upper case. */
  method MapUpcase(data: string, ghost ls: seq<string>) returns (pa: array<char>)
    requires ls != [] && data == Flatten(ls) && EOS !in data
    ensures fresh(pa) && Denotes(pa, 0, Join(UpcaseLines(ls))) && |data| == |Join(UpcaseLines(ls))| + 1
  {
    hide Flatten, Join, UpcaseLines;
    FlattenIsJoin(ls);
    UpcaseJoin(ls);
    pa := new char[|data|](i requires 0 <= i < |data| => data[i]);
    pa[|data| - 1] := EOS;
    ghost var t := Join(ls);
    assert forall j :: 0 <= j < |t| ==> pa[0 + j] == data[j] == t[j] && t[j] in data;
    UpcaseBuffer(pa, t);
  }

  /** The comparisons at a newline. */
  method HitAtNewline(pa: array<char>, q: nat, k: string, ghost us: seq<string>, ghost i: nat) returns (hit: bool)
    requires 0 < i < |us| && NoLF(us) && Denotes(pa, 0, Join(us)) && q + 1 == LineAt(us, i) <= |Join(us)|
    requires k != "" && k[0] != '#' && LF !in k && EOS !in k
    ensures hit <==> StartsWith(us[i], k + [BLANK]) || (us[i] == k && i + 1 < |us|)
  {
    hide Join, OccursAt, StartsWith, LineAt;
    RestHit(us, i, k);
    hit := false;
    if pa[q + 1] != '#' {
      hit := Matches(pa, q, [LF] + k + [BLANK], Join(us));
      if !hit {
        hit := Matches(pa, q, [LF] + k + [LF], Join(us));
      }
    }
  }

  /** The search at every newline, and of the last line. */
  method SearchRest(pa: array<char>, size: nat, k: string, ghost us: seq<string>) returns (r: bool)
    requires us != [] && NoLF(us) && Denotes(pa, 0, Join(us)) && size == |Join(us)| + 1
    requires k != "" && k[0] != '#' && LF !in k && EOS !in k
    ensures r <==> exists i :: 1 <= i < |us| && Hit(us[i], k)
  {
    hide Join, OccursAt, StartsWith, JoinAfter, LineAt;
    ghost var t := Join(us);
    ghost var i := 0;
    var offset, eol: Option<nat>, more := 0, None, true;
    AtLine(us, 0);
    while more
      invariant i < |us| && offset == LineAt(us, i) <= |t|
      invariant eol == if i == 0 then None else Some(offset - 1)
      invariant i == 0 || offset > 0
      invariant !more ==> i == |us| - 1
      invariant forall j :: 1 <= j <= i ==> !StartsWith(us[j], k + [BLANK]) && !(us[j] == k && j + 1 < |us|)
      decreases |us| - i, more
    {
      SubPointer(pa, 0, t, offset);
      AtLine(us, i);
      AfterLine(us, i);
      var nl := StrChr(pa, offset, LF, t[offset..]);
      if nl.None? {
        more := false;
      } else {
        NextLine(us, i);
        i := i + 1;
        var hit := HitAtNewline(pa, nl.value, k, us, i);
        if hit {
          return true;
        }
        eol := nl;
        offset := nl.value + 1;
      }
    }
    if i > 0 {
      RestHit(us, i, k);
    }
    if eol.Some? && pa[eol.value + 1] != '#' {
      AtLine(us, i);
      AfterLine(us, i);
      assert us[i] + "" == us[i];
      r := SameString(pa, eol.value + 1, k, size - eol.value, t);
    } else {
      r := false;
    }
  }

  lemma {:induction false} FileBytes(ls: seq<string>)
    requires CanonicalFile(ls)
    ensures EOS !in Flatten(ls) && NoLF(UpcaseLines(ls)) && (Flatten(ls) == "" <==> ls == [])
  {
    hide Canonical;
    if ls != [] {
      FileBytes(ls[1..]);
    }
    forall i | 0 <= i < |ls| ensures LF !in Upcase(ls[i]) {
      UpcaseNo(ls[i], LF);
    }
  }

  lemma EntryTextPlain(owner: string, list: string)
    requires PlainAddress(owner) && PlainWord(list)
    ensures var k := EntryText(owner, list); k != "" && k[0] != '#' && LF !in k && EOS !in k
  {
    PlainNoBlank(owner, list);
    UpperKeeps(owner[0]);
    UpcaseNo(owner + [BLANK] + list, LF);
    UpcaseNo(owner + [BLANK] + list, EOS);
  }

  /** A file no longer than the entry text has no entry behind its first line. */
  lemma HitFits(us: seq<string>, k: string)
    requires NoLF(us) && us != []
    ensures |Join(us)| == |k| ==> forall i :: 1 <= i < |us| ==> !Hit(us[i], k)
  {
    hide Join, JoinAfter;
    forall i | 1 <= i < |us| && Hit(us[i], k) ensures |Join(us)| > |k| {
      AtLine(us, i);
      JoinAround(us, i);
    }
  }

  /** mmap_owner_listed */
  method MmapOwnerListed(file: LineFile, owner: string, list: string) returns (r: bool)
    requires file.Valid() && CanonicalFile(file.lines) && PlainAddress(owner) && PlainWord(list)
    ensures r <==> Listed(file.lines, Key(Upcase(owner), Upcase(list)))
  {
    hide Flatten, Join, Canonical, Listed, OccursAt, EntryText, StartsWith;
    SomeHitIsListed(file.lines, owner, list);
    FileBytes(file.lines);
    EntryTextPlain(owner, list);
    var size := |file.data|;
    if size == 0 {
      return false;
    }
    var pa := MapUpcase(file.data, file.lines);
    ghost var us := UpcaseLines(file.lines);
    var k := EntryText(owner, list);
    FirstHit(us, k);
    HitFits(us, k);
    var hit := Matches(pa, 0, k + [BLANK], Join(us));
    if !hit {
      hit := Matches(pa, 0, k + [LF], Join(us));
    }
    if hit {
      r := true;
    } else if size == |k| + 1 {
      r := SameString(pa, 0, k, |k| + 1, Join(us));
    } else {
      r := SearchRest(pa, size, k, us);
    }
  }

  // ---------------------------------------------------------------- the commands keep the format

  lemma EntryCanonical(owner: string, list: string, prefs: string, n: nat)
    requires ValidArgs(owner, list, prefs) && EOS !in prefs
    ensures var l := Entry(owner, list, prefs) + BlankLine(n);
            Canonical(l) && LF !in l && EOS !in l
  {
    hide PlainAddress, Upcase;
    var w := Locase(list);
    var tail := [BLANK] + prefs + BlankLine(n);
    LowerWord(list);
    PlainNoBlank(owner, w);
    assert Entry(owner, list, prefs) + BlankLine(n) == owner + [BLANK] + w + tail;
    assert IsEntry(Entry(owner, list, prefs) + BlankLine(n), owner, w, tail);
  }

  lemma InsertCanonical(ls: seq<string>, owner: string, list: string, prefs: string, n: nat)
    requires ValidArgs(owner, list, prefs) && EOS !in prefs && CanonicalFile(ls) && n <= |ls|
    ensures var s := Entry(owner, list, prefs); CanonicalFile(Insert(ls, Slot(ls, n, |s|), s))
  {
    hide Canonical, Entry, ValidArgs, Slot;
    var s := Entry(owner, list, prefs);
    var slot := Slot(ls, n, |s|);
    EntryCanonical(owner, list, prefs, if slot.Some? then |ls[slot.value]| - |s| else 0);
    assert s + BlankLine(0) == s;
  }

  lemma EraseCanonical(ls: seq<string>, i: nat)
    requires CanonicalFile(ls) && i < |ls|
    ensures CanonicalFile(Erase(ls, i))
  {
    assert AllBlank(BlankLine(|ls[i]|));
  }

  /** So the two lookups agree after every run of commands. */
  lemma CommandsKeepCanonical(ls: seq<string>, owner: string, prefs: string, list: string, remove: bool)
    requires ValidArgs(owner, list, prefs) && EOS !in prefs && CanonicalFile(ls)
    ensures CanonicalFile(ProcLines(ls, owner, prefs, list, remove))
    ensures CanonicalFile(SetLines(ls, owner, prefs, list))
  {
    hide Canonical, CanonicalFile, Entry, ValidArgs, KeyOf, Slot, Insert;
    var i := FindEntry(ls, KeyFor(owner, list));
    InsertCanonical(ls, owner, list, prefs, |ls|);
    if i < |ls| {
      EraseCanonical(ls, i);
      SlotErased(ls, i, i, |Entry(owner, list, prefs)|);
      InsertCanonical(Erase(ls, i), owner, list, prefs, i);
      RewriteCanonical(ls, owner, list, prefs, i);
    }
  }

  lemma RewriteCanonical(ls: seq<string>, owner: string, list: string, prefs: string, i: nat)
    requires ValidArgs(owner, list, prefs) && EOS !in prefs && CanonicalFile(ls) && i < |ls|
    ensures var s := Entry(owner, list, prefs);
            |s| <= |ls[i]| ==> CanonicalFile(ls[i := Padded(s, |ls[i]|)])
  {
    hide Canonical, Entry, ValidArgs;
    var s := Entry(owner, list, prefs);
    if |s| <= |ls[i]| {
      EntryCanonical(owner, list, prefs, |ls[i]| - |s|);
    }
  }
}
