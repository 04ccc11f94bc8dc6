/** The file of messages waiting for a moderator: a message is taken out of it
    by its tag, on the mapped bytes (commands/approve.c, commands/discard.c). */
module Moderated {
  import opened Text
  import opened TextFiles
  import opened Buffers

  const FROM := "From "
  const NEXT_MESSAGE := "\nFrom "
  const APPROVED_BY_MODERATOR := "From LP-APPROVED-BY-MODERATOR"

  function TagLine(tag: nat): string { "Message-Tag: " + Dec(tag) }

  function TagString(tag: nat): string { [LF] + TagLine(tag) + [LF] }

  // ---------------------------------------------------------------- on every text

  /** *start == '\n' && strncasecmp("\nFrom ", start, 6) == 0 */
  predicate FromHere(s: string, p: nat)
  {
    p + 6 <= |s| && s[p] == LF && SameNoCase(s[p..p + 6], NEXT_MESSAGE)
  }

  /** The walk back to the start of the message around p. */
  function StartOf(s: string, p: nat): (b: nat)
    ensures b <= p + 1
  {
    if p == 0 then 0 else if FromHere(s, p) then p + 1 else StartOf(s, p - 1)
  }

  /** First byte and last byte of the message. */
  datatype Span = Span(start: nat, end: nat)

  /** The message with this tag, in a file whose last byte is hidden while searching. */
  function Locate(s: string, tag: nat): (f: Option<Span>)
    ensures f.Some? ==> f.value.start <= f.value.end + 1 <= |s|
  {
    if s == "" then None
    else
      var t := s[..|s| - 1];
      match FirstAt(t, 0, TagString(tag))
      case None => None
      case Some(p) =>
        var next := FirstAt(t, p, NEXT_MESSAGE);
        Some(Span(StartOf(s, p), if next.Some? then next.value else |s| - 1))
  }

  function Without(s: string, f: Span): string
    requires f.start <= f.end + 1 <= |s|
  {
    s[..f.start] + s[f.end + 1..]
  }

  function Taken(s: string, f: Span): string
    requires f.start <= f.end + 1 <= |s|
  {
    s[f.start..f.end + 1]
  }

  /** strcspn(s, CRLF) */
  function EndOfLine(s: string): (e: nat)
    ensures e <= |s|
  {
    if s == "" || s[0] == '\r' || s[0] == LF then 0 else 1 + EndOfLine(s[1..])
  }

  /** A message without its first line when that is a From line. */
  function Body(m: string): string
  {
    if |m| >= 5 && SameNoCase(m[..5], FROM) then
      var e := EndOfLine(m);
      if e + 1 < |m| && m[e] == '\r' && m[e + 1] == LF then m[e + 2..]
      else if e < |m| then m[e + 1..] else ""
    else m
  }

  // ---------------------------------------------------------------- the two commands

  class ModeratedFiles {
    var moderated: string
    var mail: string

    constructor (moderated: string, mail: string)
      ensures this.moderated == moderated && this.mail == mail
    {
      this.moderated, this.mail := moderated, mail;
    }

    /** discard_moderated_message */
    method Discard(tag: nat) returns (ok: bool)
      requires EOS !in moderated
      modifies this`moderated
      ensures var f := Locate(old(moderated), tag);
              ok == f.Some? && moderated == if ok then Without(old(moderated), f.value) else old(moderated)
    {
      if moderated == "" {
        return false;
      }
      var buf, f := FindMessage(moderated, tag);
      if f.None? {
        return false;
      }
      moderated := buf[..f.value.start] + buf[f.value.end + 1..];
      ok := true;
    }

    /** approve_moderated_message */
    method Approve(tag: nat) returns (ok: bool)
      requires EOS !in moderated
      modifies this
      ensures var f := Locate(old(moderated), tag);
              && ok == f.Some?
              && moderated == (if ok then Without(old(moderated), f.value) else old(moderated))
              && mail == (if ok then old(mail) + APPROVED_BY_MODERATOR + [LF] + Body(Taken(old(moderated), f.value))
                          else old(mail))
    {
      hide Locate, Body;
      if moderated == "" {
        NothingInEmpty(tag);
        return false;
      }
      var buf, f := FindMessage(moderated, tag);
      if f.None? {
        return false;
      }
      var start, end := f.value.start, f.value.end;
      var pos := BodyStart(buf, start, end + 1);
      mail := mail + APPROVED_BY_MODERATOR + [LF] + buf[pos..end + 1];
      moderated := buf[..start] + buf[end + 1..];
      ok := true;
    }
  }

  /** The file is mapped, ended by EOS in place of its last byte, searched, and
      restored. */
  method FindMessage(s: string, tag: nat) returns (buf: array<char>, f: Option<Span>)
    requires s != "" && EOS !in s
    ensures fresh(buf) && buf[..] == s && f == Locate(s, tag)
  {
    hide FirstAt, FromHere, TagString, StartOf;
    var n := |s|;
    buf := new char[n](i requires 0 <= i < n => s[i]);
    var lastChar := buf[n - 1];
    buf[n - 1] := EOS;
    ghost var t := s[..n - 1];
    assert Denotes(buf, 0, t);
    TagStringPlain(tag);
    var p := StrStr(buf, 0, TagString(tag), t);
    if p.None? {
      buf[n - 1] := lastChar;
      assert buf[..] == s;
      return buf, None;
    }
    var next := StrStr(buf, p.value, NEXT_MESSAGE, t);
    var end := if next.Some? then next.value else n - 1;
    buf[n - 1] := lastChar;
    assert buf[..] == s;
    var start := WalkBack(buf, p.value);
    f := Some(Span(start, end));
  }

  lemma TagStringPlain(tag: nat)
    ensures EOS !in TagString(tag) && TagString(tag) != ""
  {
    assert forall i :: 0 <= i < |Dec(tag)| ==> IsDigit(Dec(tag)[i]);
  }

  method WalkBack(buf: array<char>, p: nat) returns (start: nat)
    requires p < buf.Length
    ensures start == StartOf(buf[..], p)
  {
    hide FromHere;
    start := p;
    while start > 0
      invariant start <= p && StartOf(buf[..], start) == StartOf(buf[..], p)
    {
      if FromHere(buf[..], start) {
        return start + 1;
      }
      start := start - 1;
    }
  }

  /** end_of_line and skip_crlf, within the message */
  method SkipLine(buf: array<char>, start: nat, stop: nat) returns (pos: nat)
    requires start <= stop <= buf.Length
    ensures start <= pos <= stop
    ensures var m := buf[start..stop]; var e := EndOfLine(m);
            pos == start + (if e + 1 < |m| && m[e] == '\r' && m[e + 1] == LF then e + 2
                            else if e < |m| then e + 1 else |m|)
  {
    ghost var m := buf[start..stop];
    pos := start;
    while pos < stop && buf[pos] != '\r' && buf[pos] != LF
      invariant start <= pos <= stop
      invariant EndOfLine(m) == pos - start + EndOfLine(m[pos - start..])
    {
      assert m[pos - start..][1..] == m[pos + 1 - start..];
      pos := pos + 1;
    }
    if pos + 1 < stop && buf[pos] == '\r' && buf[pos + 1] == LF {
      pos := pos + 2;
    } else if pos < stop {
      pos := pos + 1;
    }
  }

  /** Past the From line of the message, if it has one. */
  method BodyStart(buf: array<char>, start: nat, stop: nat) returns (pos: nat)
    requires start <= stop <= buf.Length
    ensures start <= pos <= stop && buf[pos..stop] == Body(buf[start..stop])
  {
    hide EndOfLine, SameNoCase;
    ghost var m := buf[start..stop];
    pos := start;
    if stop - start >= 5 && SameNoCase(buf[start..start + 5], FROM) {
      assert m[..5] == buf[start..start + 5];
      pos := SkipLine(buf, start, stop);
    } else if stop - start >= 5 {
      assert m[..5] == buf[start..start + 5];
    }
    assert buf[pos..stop] == m[pos - start..];
  }

  lemma NothingInEmpty(tag: nat)
    ensures Locate("", tag) == None
  {
  }

  // ---------------------------------------------------------------- on stores of messages

  predicate StartsNoCase(l: string, w: string) { |w| <= |l| && SameNoCase(l[..|w|], w) }

  /** Lines a to b are a message whose tag is on line t, the first such line of the file. */
  ghost predicate IsMessage(ls: seq<string>, a: nat, t: nat, b: nat, tag: nat)
  {
    && NoLF(ls) && ls != [] && ls[0] != ""
    && a < t < b <= |ls| && t + 1 < |ls|
    && StartsWith(ls[a], FROM)
    && ls[t] == TagLine(tag) && (forall k :: 1 <= k < t ==> ls[k] != TagLine(tag))
    && (forall k :: a < k <= t ==> !StartsNoCase(ls[k], FROM))
    && (forall k :: t < k < b ==> !StartsWith(ls[k], FROM))
    && (b < |ls| ==> StartsWith(ls[b], FROM))
  }

  lemma Shorter(s: string, n: nat, q: nat, w: string)
    requires n <= |s|
    ensures OccursAt(s[..n], q, w) <==> OccursAt(s, q, w) && q + |w| <= n
  {
    if q + |w| <= n {
      assert s[..n][q..q + |w|] == s[q..q + |w|];
    }
  }

  lemma TagFound(ls: seq<string>, a: nat, t: nat, b: nat, tag: nat)
    requires IsMessage(ls, a, t, b, tag)
    ensures var s := Flatten(ls);
            && s != "" && Offset(ls, t) >= 1
            && FirstAt(s[..|s| - 1], 0, TagString(tag)) == Some(Offset(ls, t) - 1)
  {
    hide Flatten, Offset, OccursAt, TagLine, FirstAt, StartsWith, StartsNoCase;
    var s, w, p := Flatten(ls), TagString(tag), Offset(ls, t) - 1;
    WholeLineOccurs(ls, t);
    OffsetEnds(ls);
    OffsetMonotone(ls, t, |ls|);
    LineBytes(ls, t);
    var n := |s| - 1;
    Shorter(s, n, p, w);
    forall q | 0 <= q < p ensures !OccursAt(s[..n], q, w) {
      Shorter(s, n, q, w);
      if OccursAt(s, q, w) {
        TagLinePlain(tag);
        var i := OccursIsWholeLine(ls, q, TagLine(tag));
        if i > t {
          OffsetMonotone(ls, t, i);
        }
        assert false;
      }
    }
    FirstAtUnique(s[..n], 0, w, p);
  }

  lemma TagLinePlain(tag: nat)
    ensures LF !in TagLine(tag)
  {
    assert forall i :: 0 <= i < |Dec(tag)| ==> IsDigit(Dec(tag)[i]);
  }

  /** The last byte of the message. */
  lemma EndFound(ls: seq<string>, a: nat, t: nat, b: nat, tag: nat)
    requires IsMessage(ls, a, t, b, tag)
    ensures var s := Flatten(ls); var p := Offset(ls, t) - 1;
            && s != "" && p >= 0
            && var next := FirstAt(s[..|s| - 1], p, NEXT_MESSAGE);
            (if next.Some? then next.value else |s| - 1) == Offset(ls, b) - 1
  {
    hide Flatten, Offset, OccursAt, TagLine, FirstAt, StartsWith, StartsNoCase;
    var s, p := Flatten(ls), Offset(ls, t) - 1;
    WholeLineOccurs(ls, t);
    OffsetEnds(ls);
    OffsetMonotone(ls, t, b);
    OffsetMonotone(ls, t, |ls|);
    var n := |s| - 1;
    assert NEXT_MESSAGE == [LF] + FROM;
    forall q | p <= q && OccursAt(s[..n], q, NEXT_MESSAGE) ensures b < |ls| && q >= Offset(ls, b) - 1 {
      Shorter(s, n, q, NEXT_MESSAGE);
      var i := OccursIsPrefix(ls, q, FROM);
      TagLineNotFrom(tag);
      if i < t {
        OffsetMonotone(ls, i, t);
      }
      if b < i {
        OffsetMonotone(ls, b, i);
      }
    }
    if b < |ls| {
      PrefixOccurs(ls, b, FROM);
      LineBytes(ls, b);
      OffsetMonotoneOrEnd(ls, b + 1);
      assert |ls[b]| >= 5 by {
        StartsLonger(ls[b], FROM);
      }
      Shorter(s, n, Offset(ls, b) - 1, NEXT_MESSAGE);
      FirstAtUnique(s[..n], p, NEXT_MESSAGE, Offset(ls, b) - 1);
    } else {
      FirstAtNone(s[..n], p, NEXT_MESSAGE);
    }
  }

  lemma StartsLonger(l: string, w: string)
    requires StartsWith(l, w)
    ensures |w| <= |l|
  {
  }

  lemma OffsetMonotoneOrEnd(ls: seq<string>, i: nat)
    requires i <= |ls|
    ensures Offset(ls, i) <= |Flatten(ls)|
  {
    hide Flatten, Offset;
    OffsetEnds(ls);
    if i < |ls| {
      OffsetMonotone(ls, i, |ls|);
    }
  }

  lemma TagLineNotFrom(tag: nat)
    ensures !StartsWith(TagLine(tag), FROM)
  {
    assert TagLine(tag)[0] == 'M';
  }

  lemma {:induction false} StartOfIs(s: string, p: nat, b: nat)
    requires b <= p
    requires forall q :: b <= q <= p && q > 0 ==> !FromHere(s, q)
    requires b > 0 ==> FromHere(s, b - 1) && b - 1 > 0
    ensures StartOf(s, p) == b
  {
    if p > b {
      StartOfIs(s, p - 1, b);
    } else if b > 0 {
      assert StartOf(s, b - 1) == b;
    }
  }

  /** A case-blind From after a newline is at the start of a line. */
  lemma FromHereLine(ls: seq<string>, q: nat) returns (i: nat)
    requires NoLF(ls) && FromHere(Flatten(ls), q)
    ensures 1 <= i < |ls| && Offset(ls, i) == q + 1 && StartsNoCase(ls[i], FROM)
  {
    hide Flatten, Offset;
    var s := Flatten(ls);
    i := NewlineEndsLine(ls, q);
    i := i + 1;
    OffsetEnds(ls);
    LineBytes(ls, i);
    NoCaseLine(s, q, ls[i], Flatten(ls[i + 1..]));
  }

  lemma NoCaseLine(s: string, q: nat, l: string, rest: string)
    requires FromHere(s, q) && s[q + 1..] == l + [LF] + rest
    ensures StartsNoCase(l, FROM)
  {
    var u := s[q..q + 6];
    assert Locase(u) == Locase(NEXT_MESSAGE);
    var t := l + [LF] + rest;
    forall j | 0 <= j < 5 ensures Lower(t[j]) == Lower(FROM[j]) && t[j] != LF {
      assert t[j] == s[q + 1 + j] == u[j + 1];
      assert Locase(u)[j + 1] == Locase(NEXT_MESSAGE)[j + 1];
    }
    assert t[|l|] == LF;
    if |l| < 5 {
      assert false;
    }
    assert l[..5] == t[..5];
    assert Locase(l[..5]) == Locase(FROM);
  }

  /** The bytes taken are the message's lines, the bytes left are the others. */
  lemma MessageLocated(ls: seq<string>, a: nat, t: nat, b: nat, tag: nat)
    requires IsMessage(ls, a, t, b, tag)
    ensures var s := Flatten(ls); var f := Locate(s, tag);
            && f.Some?
            && Taken(s, f.value) == Flatten(ls[a..b])
            && Without(s, f.value) == Flatten(ls[..a] + ls[b..])
  {
    hide Flatten, Offset, TagString, FirstAt, FromHere, StartsWith, StartsNoCase, TagLine;
    TagFound(ls, a, t, b, tag);
    EndFound(ls, a, t, b, tag);
    StartFound(ls, a, t, b, tag);
    var s := Flatten(ls);
    assert Locate(s, tag) == Some(Span(Offset(ls, a), Offset(ls, b) - 1));
    SplitAt(ls, a, b);
  }

  lemma SplitAt(ls: seq<string>, a: nat, b: nat)
    requires a <= b <= |ls|
    ensures var s := Flatten(ls); var p := Offset(ls, a); var q := Offset(ls, b);
            && p <= q <= |s|
            && s[p..q] == Flatten(ls[a..b])
            && s[..p] + s[q..] == Flatten(ls[..a] + ls[b..])
  {
    hide Flatten, OccursAt;
    FlattenAppend(ls[..a], ls[a..b]);
    assert ls[..a] + ls[a..b] == ls[..b];
    FlattenAppend(ls[..b], ls[b..]);
    assert ls[..b] + ls[b..] == ls;
    FlattenAppend(ls[..a], ls[b..]);
    ThreeParts(Flatten(ls[..a]), Flatten(ls[a..b]), Flatten(ls[b..]));
  }

  lemma ThreeParts(u: string, v: string, w: string)
    ensures var s := (u + v) + w; var p := |u|; var q := |u + v|;
            s[p..q] == v && s[..p] + s[q..] == u + w
  {
  }

  lemma StartFound(ls: seq<string>, a: nat, t: nat, b: nat, tag: nat)
    requires IsMessage(ls, a, t, b, tag)
    ensures Offset(ls, t) >= 1 && StartOf(Flatten(ls), Offset(ls, t) - 1) == Offset(ls, a)
  {
    hide Flatten, Offset, FromHere, StartsWith, TagLine, StartsNoCase;
    var s, p := Flatten(ls), Offset(ls, t) - 1;
    OffsetMonotone(ls, a, t);
    OffsetEnds(ls);
    forall q | Offset(ls, a) <= q <= p && q > 0 ensures !FromHere(s, q) {
      if FromHere(s, q) {
        var i := FromHereLine(ls, q);
        if i <= a && i < a {
          OffsetMonotone(ls, i, a);
        }
        if t < i {
          OffsetMonotone(ls, t, i);
        }
        assert false;
      }
    }
    if a > 0 {
      FromLineHere(ls, a);
      FirstLineLonger(ls, a);
    }
    StartOfIs(s, p, Offset(ls, a));
  }

  lemma FirstLineLonger(ls: seq<string>, a: nat)
    requires 1 <= a <= |ls| && ls[0] != ""
    ensures Offset(ls, a) >= 2
  {
    OffsetStep(ls, a);
  }

  lemma FromLineHere(ls: seq<string>, a: nat)
    requires 1 <= a < |ls| && StartsWith(ls[a], FROM)
    ensures Offset(ls, a) >= 1 && FromHere(Flatten(ls), Offset(ls, a) - 1)
  {
    hide Flatten, Offset;
    PrefixOccurs(ls, a, FROM);
    assert NEXT_MESSAGE == [LF] + FROM;
  }

  lemma FoundOnLine(ls: seq<string>, tag: nat) returns (i: nat)
    requires NoLF(ls) && ls != [] && Locate(Flatten(ls), tag).Some?
    ensures 1 <= i < |ls| - 1 && ls[i] == TagLine(tag)
  {
    hide Flatten, Offset, OccursAt, TagLine, FirstAt, StartOf;
    var s, w := Flatten(ls), TagString(tag);
    var n := |s| - 1;
    var p := FirstAt(s[..n], 0, w).value;
    Shorter(s, n, p, w);
    TagLinePlain(tag);
    i := OccursIsWholeLine(ls, p, TagLine(tag));
    LineBytes(ls, i);
    OffsetEnds(ls);
  }

  /** A line that is neither first nor last is seen with its newlines although
      the last byte is hidden. */
  lemma LineSeen(ls: seq<string>, t: nat)
    requires 1 <= t < |ls| - 1
    ensures var s := Flatten(ls); var p := Offset(ls, t) - 1;
            s != "" && p >= 0 && OccursAt(s[..|s| - 1], p, [LF] + ls[t] + [LF])
  {
    hide Flatten, Offset, OccursAt;
    WholeLineOccurs(ls, t);
    LineBytes(ls, t);
    OffsetEnds(ls);
    OffsetMonotone(ls, t + 1, |ls|);
    Shorter(Flatten(ls), |Flatten(ls)| - 1, Offset(ls, t) - 1, [LF] + ls[t] + [LF]);
  }

  lemma LineIsFound(ls: seq<string>, tag: nat, t: nat)
    requires 1 <= t < |ls| - 1 && ls[t] == TagLine(tag)
    ensures Locate(Flatten(ls), tag).Some?
  {
    hide Flatten, Offset, OccursAt, TagLine, Locate;
    LineSeen(ls, t);
    SomethingLocated(Flatten(ls), Offset(ls, t) - 1, tag);
  }

  lemma SomethingLocated(s: string, p: nat, tag: nat)
    requires s != "" && OccursAt(s[..|s| - 1], p, TagString(tag))
    ensures Locate(s, tag).Some?
  {
    hide OccursAt, TagString, StartOf, FirstAt;
    assert FirstAt(s[..|s| - 1], 0, TagString(tag)).Some?;
  }

  /** The command finds something just when the tag is on some line other than
      the first and the last of the file. */
  lemma LocateFinds(ls: seq<string>, tag: nat)
    requires NoLF(ls) && ls != []
    ensures Locate(Flatten(ls), tag).Some? <==> exists t :: 1 <= t < |ls| - 1 && ls[t] == TagLine(tag)
  {
    hide Flatten, TagLine, Locate;
    if t :| 1 <= t < |ls| - 1 && ls[t] == TagLine(tag) {
      LineIsFound(ls, tag, t);
    }
    if Locate(Flatten(ls), tag).Some? {
      var i := FoundOnLine(ls, tag);
    }
  }

  /** What approve mails of a message is the message without its From line. */
  lemma BodyOfMessage(ls: seq<string>)
    requires ls != [] && StartsNoCase(ls[0], FROM) && LF !in ls[0] && '\r' !in ls[0]
    ensures Body(Flatten(ls)) == Flatten(ls[1..])
  {
    var l, rest := ls[0], Flatten(ls[1..]);
    assert Flatten(ls) == l + [LF] + rest;
    assert (l + [LF] + rest)[..5] == l[..5];
    EndOfPlainLine(l, rest);
    assert (l + [LF] + rest)[|l| + 1..] == rest;
  }

  /** A From line may end in a carriage return, a newline, or one behind the other; a
      message that does not begin with such a line is mailed whole. */
  lemma FromLineSkipped(l: string, end: string, rest: string)
    requires LF !in l && '\r' !in l && StartsNoCase(l, FROM)
    requires end == "\n" || end == "\r\n" || (end == "\r" && (rest == "" || rest[0] != LF)) || (end == "" == rest)
    ensures Body(l + end + rest) == rest
  {
    var m := l + end + rest;
    assert m == l + (end + rest);
    EndOfFirst(l, end + rest);
    assert m[..5] == l[..5];
    assert m[|l| + |end|..] == rest;
    if end != "" {
      assert m[|l|] == end[0];
    }
    if end == "\r\n" {
      assert m[|l| + 1] == LF;
    } else if end == "\r" && rest != "" {
      assert m[|l| + 1] == rest[0];
    }
  }

  lemma WholeMessage(m: string)
    requires !StartsNoCase(m, FROM)
    ensures Body(m) == m
  {
  }

  lemma {:induction false} EndOfFirst(l: string, rest: string)
    requires LF !in l && '\r' !in l && (rest == "" || rest[0] == LF || rest[0] == '\r')
    ensures EndOfLine(l + rest) == |l|
  {
    if l == "" {
      assert l + rest == rest;
    } else {
      assert (l + rest)[1..] == l[1..] + rest;
      EndOfFirst(l[1..], rest);
    }
  }

  lemma EndOfPlainLine(l: string, rest: string)
    requires LF !in l && '\r' !in l
    ensures EndOfLine(l + [LF] + rest) == |l|
  {
    EndOfFirst(l, [LF] + rest);
    assert l + [LF] + rest == l + ([LF] + rest);
  }
}
