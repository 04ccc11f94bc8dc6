/** remove_msg of lplib/misc.c, which drops a message line by line, printing
    each line one step late, against the byte search of discard. */
module RemoveMsg {
  import opened Text
  import opened TextFiles
  import opened Numbers
  import opened Moderated

  const TAG := "Message-Tag:"

  // ---------------------------------------------------------------- reading a tag

  /** Length of the blanks and tabs at the front. */
  function Blanks(s: string): (n: nat)
    ensures n <= |s|
  {
    if s != "" && (s[0] == BLANK || s[0] == '\t') then 1 + Blanks(s[1..]) else 0
  }

  /** sscanf("%d"): None when no number starts here. */
  function ScanInt(s: string): Option<int>
  {
    var t := s[Blanks(s)..];
    if t != "" && IsDigit(t[0]) then Some(Atoi(t))
    else if |t| > 1 && (t[0] == '-' || t[0] == '+') && IsDigit(t[1]) then
      var n: int := Atoi(t[1..]);
      Some(if t[0] == '-' then -n else n)
    else None
  }

  lemma {:induction false} BlanksAre(b: string, t: string)
    requires (forall i :: 0 <= i < |b| ==> b[i] == BLANK || b[i] == '\t')
    requires t == "" || (t[0] != BLANK && t[0] != '\t')
    ensures Blanks(b + t) == |b|
  {
    if b == "" {
      assert b + t == t;
    } else {
      assert (b + t)[1..] == b[1..] + t;
      BlanksAre(b[1..], t);
    }
  }

  /** A number behind blanks is scanned with its sign, up to what is no digit. */
  lemma NumberScanned(b: string, n: int, rest: string)
    requires (forall i :: 0 <= i < |b| ==> b[i] == BLANK || b[i] == '\t') && (rest == "" || !IsDigit(rest[0]))
    ensures ScanInt(b + (DecInt(n) + rest)) == Some(n)
    ensures n >= 0 ==> ScanInt(b + ("+" + Dec(n) + rest)) == Some(n)
  {
    hide Dec, Blanks, AtoiFrom;
    var m := if n < 0 then -n else n;
    DecDigits(m);
    AtoiStops(Dec(m), rest, 0);
    AtoiDec(m);
    var d := Dec(m) + rest;
    forall t | t in {d, "-" + Dec(m) + rest, "+" + Dec(m) + rest}
      ensures Blanks(b + t) == |b| && (b + t)[|b|..] == t
    {
      BlanksAre(b, t);
    }
    assert ("-" + Dec(m) + rest)[1..] == d && ("+" + Dec(m) + rest)[1..] == d;
  }

  /** Where no number starts nothing is scanned. */
  lemma NothingScanned(b: string, t: string)
    requires (forall i :: 0 <= i < |b| ==> b[i] == BLANK || b[i] == '\t')
    requires t == "" || (t[0] != BLANK && t[0] != '\t' && !IsDigit(t[0]))
    requires |t| > 1 && (t[0] == '-' || t[0] == '+') ==> !IsDigit(t[1])
    ensures ScanInt(b + t) == None
  {
    hide Blanks;
    BlanksAre(b, t);
    assert (b + t)[|b|..] == t;
  }

  // ---------------------------------------------------------------- the copy machine

  /** The variables of the loop between two lines; lines keep their newline. */
  datatype Machine = Machine(prev: string, copy: bool, found: bool, tag: int, out: string)

  /** A tag line is read and printed again from what was read. */
  function ReadTag(m: Machine, line: string): (string, int)
    requires StartsWith(line, TAG)
  {
    var k := |TAG| + Blanks(line[|TAG|..]);
    var n := ScanInt(line[k..]);
    var tag := if n.Some? then n.value else m.tag;
    (line[..k] + DecInt(tag) + [LF], tag)
  }

  function Step(m: Machine, line: string, wanted: int): Machine
  {
    var starts := StartsWith(line, FROM) && !m.copy;
    var prev := if starts then "" else m.prev;
    var copy := m.copy || starts;
    if StartsWith(line, TAG) then
      var (again, tag) := ReadTag(m, line);
      var hit := wanted == tag;
      Machine(again, copy && !hit, m.found || hit, tag, if copy && !hit then m.out + prev else m.out)
    else
      Machine(line, copy, m.found, m.tag, if copy then m.out + prev else m.out)
  }

  function Run(m: Machine, ls: seq<string>, wanted: int): Machine
  {
    if ls == [] then m else Step(Run(m, ls[..|ls| - 1], wanted), ls[|ls| - 1] + [LF], wanted)
  }

  /** What is printed, with the line still held back. */
  function Flushed(m: Machine): string { if m.copy then m.out + m.prev else m.out }

  /** The loop variables at the start; `tag` is not set by the program. */
  function Start(tag: int): Machine { Machine("", false, false, tag, "") }

  /** remove_msg: the lines of the file are read, the lines kept are written. */
  method RemoveMessage(ls: seq<string>, wanted: int, unset: int) returns (out: string, found: bool)
    ensures var m := Run(Start(unset), ls, wanted);
            out == Flushed(m) && found == m.found
  {
    hide Run, ScanInt, DecInt, Blanks;
    assert Run(Start(unset), ls[..0], wanted) == Start(unset) by {
      RunNothing(Start(unset), ls[..0], wanted);
    }
    var prevLine, copy, tag := "", false, unset;
    out, found := "", false;
    var i := 0;
    while i < |ls|
      invariant 0 <= i <= |ls|
      invariant Machine(prevLine, copy, found, tag, out) == Run(Start(unset), ls[..i], wanted)
    {
      RunStep(Start(unset), ls, i, wanted);
      var line := ls[i] + [LF];
      if StartsWith(line, FROM) && !copy {
        prevLine := "";
        copy := true;
      }
      if StartsWith(line, TAG) {
        var k := |TAG| + Blanks(line[|TAG|..]);
        var n := ScanInt(line[k..]);
        if n.Some? {
          tag := n.value;
        }
        line := line[..k] + DecInt(tag) + [LF];
        if wanted == tag {
          found := true;
          copy := false;
        }
      }
      if copy && prevLine != "" {
        out := out + prevLine;
      }
      prevLine := line;
      i := i + 1;
    }
    assert ls[..i] == ls;
    if copy && prevLine != "" {
      out := out + prevLine;
    }
  }

  lemma RunNothing(m: Machine, ls: seq<string>, wanted: int)
    requires ls == []
    ensures Run(m, ls, wanted) == m
  {
  }

  lemma RunStep(m: Machine, ls: seq<string>, i: nat, wanted: int)
    requires i < |ls|
    ensures Run(m, ls[..i + 1], wanted) == Step(Run(m, ls[..i], wanted), ls[i] + [LF], wanted)
  {
    assert ls[..i + 1][..i] == ls[..i];
  }

  lemma {:induction false} RunAppend(m: Machine, a: seq<string>, b: seq<string>, wanted: int)
    ensures Run(m, a + b, wanted) == Run(Run(m, a, wanted), b, wanted)
  {
    hide Step;
    if b == [] {
      assert a + b == a;
    } else {
      assert (a + b)[..|a + b| - 1] == a + b[..|b| - 1];
      RunAppend(m, a, b[..|b| - 1], wanted);
    }
  }

  // ---------------------------------------------------------------- the three kinds of line

  predicate IsPlain(l: string) { !StartsWith(l, FROM) && !StartsWith(l, TAG) }

  lemma StartsInLine(l: string, w: string)
    requires LF !in w
    ensures StartsWith(l + [LF], w) <==> StartsWith(l, w)
  {
    assert (l + [LF])[|l|] == LF;
    if |w| <= |l| {
      assert (l + [LF])[..|w|] == l[..|w|];
    } else if StartsWith(l + [LF], w) {
      assert false;
    }
  }

  lemma PlainStep(m: Machine, l: string, wanted: int)
    requires IsPlain(l)
    ensures var m' := Step(m, l + [LF], wanted);
            && m'.copy == m.copy && m'.found == m.found
            && Flushed(m') == if m.copy then Flushed(m) + (l + [LF]) else Flushed(m)
  {
    hide StartsWith;
    StartsInLine(l, FROM);
    StartsInLine(l, TAG);
  }

  lemma FromStep(m: Machine, l: string, wanted: int)
    requires StartsWith(l, FROM)
    ensures var m' := Step(m, l + [LF], wanted);
            m'.copy && m'.found == m.found && m'.out == Flushed(m) && m'.prev == l + [LF]
  {
    FromIsNotTag(l);
    hide StartsWith;
    StartsInLine(l, FROM);
    StartsInLine(l, TAG);
  }

  lemma FromIsNotTag(l: string)
    requires StartsWith(l, FROM)
    ensures !StartsWith(l, TAG)
  {
    assert l[0] == FROM[0];
    if StartsWith(l, TAG) {
      assert false;
    }
  }

  /** A tag line of this program is read and printed unchanged. */
  lemma TagLineRead(m: Machine, tag: nat)
    ensures StartsWith(TagLine(tag) + [LF], TAG)
    ensures ReadTag(m, TagLine(tag) + [LF]) == (TagLine(tag) + [LF], tag)
  {
    var l := TagLine(tag) + [LF];
    var d := Dec(tag);
    assert l[..|TAG|] == TAG;
    var r := l[|TAG|..];
    assert r == [BLANK] + (d + [LF]);
    assert r[1..] == d + [LF];
    assert IsDigit(d[0]);
    assert Blanks(r) == 1;
    assert l[|TAG| + 1..] == d + [LF];
    AtoiStops(d, [LF], 0);
    AtoiDec(tag);
    ScanDigits(d);
    assert l[..|TAG| + 1] + d + [LF] == l;
  }

  lemma ScanDigits(d: string)
    requires d != "" && IsDigit(d[0])
    ensures ScanInt(d + [LF]) == Some(Atoi(d + [LF]))
  {
    var t := d + [LF];
    assert Blanks(t) == 0;
    assert t[0..] == t;
  }

  lemma TagStep(m: Machine, tag: nat, wanted: int)
    requires m.copy
    ensures var m' := Step(m, TagLine(tag) + [LF], wanted);
            && m'.copy == (tag != wanted) && m'.found == (m.found || tag == wanted)
            && Flushed(m') == if tag == wanted then m.out else Flushed(m) + (TagLine(tag) + [LF])
  {
    hide ReadTag, StartsWith;
    TagIsNotFrom(tag);
    TagLineRead(m, tag);
    StartsInLine(TagLine(tag), FROM);
  }

  lemma TagIsNotFrom(tag: nat)
    ensures !StartsWith(TagLine(tag), FROM)
  {
    assert TagLine(tag)[0] == 'M';
  }

  lemma {:induction false} PlainRun(m: Machine, ls: seq<string>, wanted: int)
    requires forall i :: 0 <= i < |ls| ==> IsPlain(ls[i])
    ensures var m' := Run(m, ls, wanted);
            && m'.copy == m.copy && m'.found == m.found
            && Flushed(m') == if m.copy then Flushed(m) + Flatten(ls) else Flushed(m)
  {
    hide Step, Flushed, IsPlain;
    if ls == [] {
      assert Flushed(m) + "" == Flushed(m);
    } else {
      var n := |ls| - 1;
      PlainRun(m, ls[..n], wanted);
      PlainStep(Run(m, ls[..n], wanted), ls[n], wanted);
      FlattenLast(ls);
      Assoc(Flushed(m), Flatten(ls[..n]), ls[n] + [LF]);
    }
  }

  lemma FlattenLast(ls: seq<string>)
    requires ls != []
    ensures Flatten(ls) == Flatten(ls[..|ls| - 1]) + (ls[|ls| - 1] + [LF])
  {
    hide Flatten;
    var n := |ls| - 1;
    assert ls == ls[..n] + [ls[n]];
    FlattenAppend(ls[..n], [ls[n]]);
    FlattenOne(ls[n]);
  }

  // ---------------------------------------------------------------- stores of messages

  /** From line, header lines in front of the tag, tag, the rest. */
  datatype Message = Message(from: string, head: seq<string>, tag: nat, rest: seq<string>)

  predicate AllPlain(ls: seq<string>)
  {
    NoLF(ls) && forall i :: 0 <= i < |ls| ==> IsPlain(ls[i])
  }

  predicate ValidMessage(m: Message)
  {
    StartsWith(m.from, FROM) && LF !in m.from && AllPlain(m.head) && AllPlain(m.rest)
  }

  function MessageLines(m: Message): seq<string>
  {
    [m.from] + m.head + [TagLine(m.tag)] + m.rest
  }

  function StoreLines(ms: seq<Message>): seq<string>
  {
    if ms == [] then [] else StoreLines(ms[..|ms| - 1]) + MessageLines(ms[|ms| - 1])
  }

  /** What is left of a message with the wanted tag: the lines in front of its
      tag, less the one held back when the tag is read. */
  function Remains(m: Message): seq<string> { ([m.from] + m.head)[..|m.head|] }

  function LinesKept(ms: seq<Message>, wanted: int): seq<string>
  {
    if ms == [] then []
    else
      var m := ms[|ms| - 1];
      LinesKept(ms[..|ms| - 1], wanted) + if m.tag == wanted then Remains(m) else MessageLines(m)
  }

  lemma HeadRun(m: Machine, x: Message, wanted: int)
    requires ValidMessage(x)
    ensures var m' := Run(m, [x.from] + x.head, wanted);
            && m'.copy && m'.found == m.found
            && Flushed(m') == Flushed(m) + Flatten([x.from] + x.head)
            && m'.out == Flushed(m) + Flatten(Remains(x))
  {
    hide Step, Flushed, StartsWith, IsPlain;
    var pre := [x.from] + x.head;
    var n := |x.head|;
    assert pre[..1] == [x.from];
    HeadRunUpTo(m, x, n, wanted);
    if n == 0 {
      assert Run(m, pre, wanted) == Step(m, x.from + [LF], wanted) by {
        assert pre[..0] == [];
      }
      FromStep(m, x.from, wanted);
      assert Flushed(m) + "" == Flushed(m);
    } else {
      HeadRunUpTo(m, x, n - 1, wanted);
      assert pre[..n] == Remains(x) && pre[n] == x.head[n - 1];
      var mid := Run(m, pre[..n], wanted);
      assert pre[..n + 1] == pre;
      RunStep(m, pre, n, wanted);
      PlainHolds(mid, x.head[n - 1], wanted);
    }
    assert pre[..n + 1] == pre;
  }

  lemma PlainHolds(m: Machine, l: string, wanted: int)
    requires IsPlain(l) && m.copy
    ensures Step(m, l + [LF], wanted).out == Flushed(m)
  {
    hide StartsWith;
    StartsInLine(l, FROM);
    StartsInLine(l, TAG);
  }

  lemma {:induction false} HeadRunUpTo(m: Machine, x: Message, k: nat, wanted: int)
    requires ValidMessage(x) && k <= |x.head|
    ensures var pre := ([x.from] + x.head)[..k + 1];
            var m' := Run(m, pre, wanted);
            m'.copy && m'.found == m.found && Flushed(m') == Flushed(m) + Flatten(pre)
  {
    hide Step, StartsWith, IsPlain;
    var all := [x.from] + x.head;
    if k == 0 {
      assert all[..1] == [x.from] && all[..0] == [];
      RunStep(m, all, 0, wanted);
      FromStep(m, x.from, wanted);
      FlattenOne(x.from);
    } else {
      HeadRunUpTo(m, x, k - 1, wanted);
      RunStep(m, all, k, wanted);
      assert all[k] == x.head[k - 1];
      PlainStep(Run(m, all[..k], wanted), x.head[k - 1], wanted);
      FlattenLast(all[..k + 1]);
      assert all[..k + 1][..k] == all[..k];
      Assoc(Flushed(m), Flatten(all[..k]), all[k] + [LF]);
    }
  }

  /** One message through the machine. */
  lemma MessageRun(m: Machine, x: Message, wanted: int)
    requires ValidMessage(x)
    ensures var m' := Run(m, MessageLines(x), wanted);
            && m'.found == (m.found || x.tag == wanted)
            && Flushed(m') == Flushed(m) + Flatten(if x.tag == wanted then Remains(x) else MessageLines(x))
  {
    hide Step, Run, Flushed, Flatten, TagLine, StartsWith, IsPlain;
    var pre, tagged := [x.from] + x.head, [TagLine(x.tag)];
    RunAppend(m, pre + tagged, x.rest, wanted);
    RunAppend(m, pre, tagged, wanted);
    HeadRun(m, x, wanted);
    var a := Run(m, pre, wanted);
    RunOne(a, TagLine(x.tag), wanted);
    TagStep(a, x.tag, wanted);
    var b := Run(a, tagged, wanted);
    PlainRun(b, x.rest, wanted);
    FlattenAppend(pre + tagged, x.rest);
    FlattenAppend(pre, tagged);
    FlattenOne(TagLine(x.tag));
    Assoc(Flushed(m), Flatten(pre), Flatten(tagged));
    Assoc(Flushed(m), Flatten(pre) + Flatten(tagged), Flatten(x.rest));
  }

  lemma RunOne(m: Machine, l: string, wanted: int)
    ensures Run(m, [l], wanted) == Step(m, l + [LF], wanted)
  {
    hide Step;
    assert [l][..0] == [];
  }

  predicate ValidStore(ms: seq<Message>) { forall i :: 0 <= i < |ms| ==> ValidMessage(ms[i]) }

  predicate HasTag(ms: seq<Message>, wanted: int)
  {
    exists i :: 0 <= i < |ms| && ms[i].tag == wanted
  }

  /** remove_msg keeps every message with another tag whole, and of each message
      with the tag the lines in front of the one before the tag. */
  lemma {:induction false} StoreRun(m: Machine, ms: seq<Message>, wanted: int)
    requires ValidStore(ms)
    ensures var m' := Run(m, StoreLines(ms), wanted);
            && m'.found == (m.found || HasTag(ms, wanted))
            && Flushed(m') == Flushed(m) + Flatten(LinesKept(ms, wanted))
  {
    hide Step, Flushed, MessageLines, ValidMessage, Remains;
    if ms == [] {
      assert Flushed(m) + "" == Flushed(m);
    } else {
      var n := |ms| - 1;
      var x := ms[n];
      StoreRun(m, ms[..n], wanted);
      RunAppend(m, StoreLines(ms[..n]), MessageLines(x), wanted);
      MessageRun(Run(m, StoreLines(ms[..n]), wanted), x, wanted);
      var kept := if x.tag == wanted then Remains(x) else MessageLines(x);
      FlattenAppend(LinesKept(ms[..n], wanted), kept);
      Assoc(Flushed(m), Flatten(LinesKept(ms[..n], wanted)), Flatten(kept));
      HasTagLast(ms, wanted);
    }
  }

  lemma HasTagLast(ms: seq<Message>, wanted: int)
    requires ms != []
    ensures var n := |ms| - 1; HasTag(ms, wanted) <==> HasTag(ms[..n], wanted) || ms[n].tag == wanted
  {
    var n := |ms| - 1;
    if HasTag(ms, wanted) {
      var i :| 0 <= i < |ms| && ms[i].tag == wanted;
      assert i < n ==> ms[..n][i] == ms[i];
    }
  }

  lemma {:induction false} AllKept(ms: seq<Message>, wanted: int)
    requires !HasTag(ms, wanted)
    ensures LinesKept(ms, wanted) == StoreLines(ms)
  {
    if ms != [] {
      HasTagLast(ms, wanted);
      AllKept(ms[..|ms| - 1], wanted);
    }
  }

  /** With the tag absent the store is rewritten as it was, so the removal that
      approve does a second time is harmless. */
  lemma RemoveAbsentIsIdentity(ms: seq<Message>, wanted: int, unset: int)
    requires ValidStore(ms) && !HasTag(ms, wanted)
    ensures var m := Run(Start(unset), StoreLines(ms), wanted);
            Flushed(m) == Flatten(StoreLines(ms)) && !m.found
  {
    hide Run, StoreLines, LinesKept, Flatten, HasTag;
    StoreRun(Start(unset), ms, wanted);
    AllKept(ms, wanted);
    assert "" + Flatten(StoreLines(ms)) == Flatten(StoreLines(ms));
  }

  // ---------------------------------------------------------------- against discard

  lemma {:induction false} StoreAppend(a: seq<Message>, b: seq<Message>)
    ensures StoreLines(a + b) == StoreLines(a) + StoreLines(b)
  {
    hide MessageLines;
    if b == [] {
      assert a + b == a;
    } else {
      var n := |b| - 1;
      assert (a + b)[..|a + b| - 1] == a + b[..n];
      StoreAppend(a, b[..n]);
      LinesAssoc(StoreLines(a), StoreLines(b[..n]), MessageLines(b[n]));
    }
  }

  lemma LinesAssoc(a: seq<string>, b: seq<string>, c: seq<string>)
    ensures (a + b) + c == a + (b + c)
  {
  }

  lemma StoreOne(x: Message)
    ensures StoreLines([x]) == MessageLines(x)
  {
    assert [x][..0] == [];
  }

  lemma PlainIsNotTag(l: string, tag: nat)
    requires IsPlain(l)
    ensures l != TagLine(tag)
  {
    var t := TagLine(tag);
    assert t[..|TAG|] == TAG;
  }

  /** Where the lines of a store come from. */
  lemma {:induction false} StoreLineKinds(ms: seq<Message>)
    requires ValidStore(ms)
    ensures NoLF(StoreLines(ms))
    ensures forall k :: 0 <= k < |StoreLines(ms)| ==>
              var l := StoreLines(ms)[k];
              IsPlain(l) || StartsWith(l, FROM) || exists i :: 0 <= i < |ms| && l == TagLine(ms[i].tag)
  {
    hide IsPlain, StartsWith, TagLine;
    if ms != [] {
      var n := |ms| - 1;
      StoreLineKinds(ms[..n]);
      var a, b := StoreLines(ms[..n]), MessageLines(ms[n]);
      TagLinePlain(ms[n].tag);
      forall k | 0 <= k < |a + b|
        ensures LF !in (a + b)[k]
        ensures var l := (a + b)[k];
                IsPlain(l) || StartsWith(l, FROM) || exists i :: 0 <= i < |ms| && l == TagLine(ms[i].tag)
      {
        if k < |a| {
          var l := a[k];
          if i :| 0 <= i < n && l == TagLine(ms[..n][i].tag) {
            assert ms[..n][i] == ms[i];
          }
        } else {
          MessageLineKind(ms[n], k - |a|);
        }
      }
    }
  }

  lemma MessageLineKind(x: Message, k: nat)
    requires ValidMessage(x) && k < |MessageLines(x)|
    ensures var l := MessageLines(x)[k];
            LF !in l && (IsPlain(l) || StartsWith(l, FROM) || l == TagLine(x.tag))
  {
    hide IsPlain, StartsWith, TagLine;
    TagLinePlain(x.tag);
    var h := |x.head|;
    if 0 < k <= h {
      assert MessageLines(x)[k] == x.head[k - 1];
    } else if k > h + 1 {
      assert MessageLines(x)[k] == x.rest[k - h - 2];
    }
  }

  /** No line in front of the tag is taken for a From line by the walk back. */
  predicate HeadNotFrom(x: Message)
  {
    forall k :: 0 <= k < |x.head| ==> !StartsNoCase(x.head[k], FROM)
  }

  lemma FirstLower(u: string, w: string)
    requires SameNoCase(u, w) && u != "" && w != ""
    ensures Lower(u[0]) == Lower(w[0])
  {
    assert Locase(u)[0] == Locase(w)[0];
  }

  lemma TagLineNotNoCase(tag: nat)
    ensures !StartsNoCase(TagLine(tag), FROM)
  {
    var l := TagLine(tag);
    assert Lower(l[0]) != Lower(FROM[0]);
    if StartsNoCase(l, FROM) {
      FirstLower(l[..5], FROM);
      assert false;
    }
  }

  /** The message x of the store a ++ [x] ++ b, as discard sees it. */
  lemma MessageInStore(a: seq<Message>, x: Message, b: seq<Message>)
    requires ValidStore(a + [x] + b) && HeadNotFrom(x) && !HasTag(a, x.tag)
    requires x.rest != [] || b != []
    ensures var ls := StoreLines(a + [x] + b);
            var p := |StoreLines(a)|;
            && p + |MessageLines(x)| <= |ls|
            && IsMessage(ls, p, p + 1 + |x.head|, p + |MessageLines(x)|, x.tag)
            && ls[p..p + |MessageLines(x)|] == MessageLines(x)
            && ls[..p] + ls[p + |MessageLines(x)|..] == StoreLines(a + b)
  {
    hide TagLine, StartsWith, IsPlain, StartsNoCase, StoreLines;
    var la, lx, lb := StoreLines(a), MessageLines(x), StoreLines(b);
    var ls := StoreLines(a + [x] + b);
    StoreAppend(a + [x], b);
    StoreAppend(a, [x]);
    StoreOne(x);
    StoreAppend(a, b);
    assert ls == la + lx + lb;
    var p, t := |la|, |la| + 1 + |x.head|;
    assert ls[p] == x.from && ls[t] == TagLine(x.tag);
    assert ls[p..p + |lx|] == lx && ls[..p] == la && ls[p + |lx|..] == lb;
    InStoreValid(a, x, b);
    TagFirstIn(a, x, p, ls);
    InsideMessage(x);
    forall k | p < k <= t ensures !StartsNoCase(ls[k], FROM) {
      assert ls[k] == lx[k - p];
    }
    forall k | t < k < p + |lx| ensures !StartsWith(ls[k], FROM) {
      assert ls[k] == lx[k - p];
    }
    NextStartsFrom(b);
    StoreLineKinds(a + [x] + b);
    StoreStarts(a + [x] + b);
  }

  lemma InStoreValid(a: seq<Message>, x: Message, b: seq<Message>)
    requires ValidStore(a + [x] + b)
    ensures ValidStore(a) && ValidMessage(x) && ValidStore(b)
  {
    hide ValidMessage;
    var ms := a + [x] + b;
    forall i | 0 <= i < |a| ensures ValidMessage(a[i]) {
      assert ms[i] == a[i];
    }
    forall i | 0 <= i < |b| ensures ValidMessage(b[i]) {
      assert ms[|a| + 1 + i] == b[i];
    }
    assert ms[|a|] == x;
  }

  lemma InsideMessage(x: Message)
    requires ValidMessage(x) && HeadNotFrom(x)
    ensures var l := MessageLines(x);
            && (forall k :: 0 < k <= 1 + |x.head| ==> !StartsNoCase(l[k], FROM))
            && (forall k :: 1 + |x.head| < k < |l| ==> !StartsWith(l[k], FROM))
  {
    hide TagLine, StartsWith, StartsNoCase;
    TagLineNotNoCase(x.tag);
    var l := MessageLines(x);
    forall k | 0 < k <= 1 + |x.head| ensures !StartsNoCase(l[k], FROM) {
      if k <= |x.head| {
        assert l[k] == x.head[k - 1];
      }
    }
    forall k | 1 + |x.head| < k < |l| ensures !StartsWith(l[k], FROM) {
      assert l[k] == x.rest[k - |x.head| - 2];
    }
  }

  lemma TagFirstIn(a: seq<Message>, x: Message, p: nat, ls: seq<string>)
    requires ValidStore(a) && ValidMessage(x) && !HasTag(a, x.tag)
    requires p == |StoreLines(a)| && p + |MessageLines(x)| <= |ls| && ls[..p] == StoreLines(a)
    requires ls[p..p + |MessageLines(x)|] == MessageLines(x)
    ensures forall k :: 0 <= k < p + 1 + |x.head| ==> ls[k] != TagLine(x.tag)
  {
    hide TagLine, StartsWith, IsPlain, StoreLines;
    StoreLineKinds(a);
    forall k | 0 <= k < p + 1 + |x.head| ensures ls[k] != TagLine(x.tag) {
      if k < p {
        var l := StoreLines(a)[k];
        assert ls[k] == l;
        if IsPlain(l) {
          PlainIsNotTag(l, x.tag);
        } else if StartsWith(l, FROM) {
          TagIsNotFrom(x.tag);
        } else {
          var i :| 0 <= i < |a| && l == TagLine(a[i].tag);
          SameTagLine(a[i].tag, x.tag);
        }
      } else {
        assert ls[k] == MessageLines(x)[k - p];
        if k == p {
          TagIsNotFrom(x.tag);
        } else {
          assert MessageLines(x)[k - p] == x.head[k - p - 1];
          PlainIsNotTag(x.head[k - p - 1], x.tag);
        }
      }
    }
  }

  lemma SameTagLine(t: nat, u: nat)
    ensures TagLine(t) == TagLine(u) ==> t == u
  {
    var n := |"Message-Tag: "|;
    assert TagLine(t)[n..] == Dec(t) && TagLine(u)[n..] == Dec(u);
    AtoiDec(t);
    AtoiDec(u);
  }

  lemma NextStartsFrom(b: seq<Message>)
    requires ValidStore(b)
    ensures StoreLines(b) != [] ==> StartsWith(StoreLines(b)[0], FROM)
    ensures b != [] ==> StoreLines(b) != []
  {
    hide StartsWith, StoreLines;
    StoreStarts(b);
    if b == [] {
      EmptyStore(b);
    }
  }

  lemma EmptyStore(b: seq<Message>)
    requires b == []
    ensures StoreLines(b) == []
  {
  }

  lemma StoreStarts(b: seq<Message>)
    requires ValidStore(b)
    ensures b != [] ==> StoreLines(b) != [] && StoreLines(b)[0] != "" && StartsWith(StoreLines(b)[0], FROM)
  {
    if b != [] {
      hide StoreLines;
      assert b == [b[0]] + b[1..];
      StoreAppend([b[0]], b[1..]);
      StoreOne(b[0]);
      assert ValidMessage(b[0]);
    }
  }

  /** discard and approve take exactly the tagged message out of the store;
      approve mails it without its From line. */
  lemma DiscardTakesMessage(a: seq<Message>, x: Message, b: seq<Message>)
    requires ValidStore(a + [x] + b) && HeadNotFrom(x) && !HasTag(a, x.tag)
    requires x.rest != [] || b != []
    requires '\r' !in x.from
    ensures var s := Flatten(StoreLines(a + [x] + b)); var f := Locate(s, x.tag);
            && f.Some?
            && Without(s, f.value) == Flatten(StoreLines(a + b))
            && Taken(s, f.value) == Flatten(MessageLines(x))
            && Body(Taken(s, f.value)) == Flatten(x.head + [TagLine(x.tag)] + x.rest)
  {
    hide Flatten, StoreLines, TagLine, IsMessage, Locate, Body, StartsWith;
    var ls, p := StoreLines(a + [x] + b), |StoreLines(a)|;
    MessageInStore(a, x, b);
    MessageLocated(ls, p, p + 1 + |x.head|, p + |MessageLines(x)|, x.tag);
    InStoreValid(a, x, b);
    FromNoCase(x.from);
    BodyOfMessage(MessageLines(x));
    assert MessageLines(x)[1..] == x.head + [TagLine(x.tag)] + x.rest;
  }

  lemma FromNoCase(l: string)
    requires StartsWith(l, FROM)
    ensures StartsNoCase(l, FROM)
  {
  }

  lemma {:induction false} KeptAppend(a: seq<Message>, b: seq<Message>, wanted: int)
    ensures LinesKept(a + b, wanted) == LinesKept(a, wanted) + LinesKept(b, wanted)
  {
    hide MessageLines, Remains;
    if b == [] {
      assert a + b == a;
    } else {
      var n := |b| - 1;
      assert (a + b)[..|a + b| - 1] == a + b[..n];
      KeptAppend(a, b[..n], wanted);
      LinesAssoc(LinesKept(a, wanted), LinesKept(b[..n], wanted),
                 if b[n].tag == wanted then Remains(b[n]) else MessageLines(b[n]));
    }
  }

  /** For a tag carried by one message, remove_msg leaves what discard leaves
      just when that message has no header line in front of its tag. */
  lemma RemoveIsDiscard(a: seq<Message>, x: Message, b: seq<Message>, unset: int)
    requires ValidStore(a + [x] + b) && HeadNotFrom(x) && !HasTag(a, x.tag) && !HasTag(b, x.tag)
    requires x.rest != [] || b != []
    ensures var s := Flatten(StoreLines(a + [x] + b)); var f := Locate(s, x.tag);
            var m := Run(Start(unset), StoreLines(a + [x] + b), x.tag);
            && f.Some? && m.found
            && (Flushed(m) == Without(s, f.value) <==> x.head == [])
  {
    hide Flatten, StoreLines, TagLine, IsMessage, Locate, MessageLines, LinesKept, Run, HasTag, Flushed;
    var ms := a + [x] + b;
    var ls, p := StoreLines(ms), |StoreLines(a)|;
    MessageInStore(a, x, b);
    MessageLocated(ls, p, p + 1 + |x.head|, p + |MessageLines(x)|, x.tag);
    StoreRun(Start(unset), ms, x.tag);
    TagPresent(a, x, b);
    KeptAppend(a + [x], b, x.tag);
    KeptAppend(a, [x], x.tag);
    KeptOne(x);
    AllKept(a, x.tag);
    AllKept(b, x.tag);
    StoreAppend(a, b);
    var la, lb, r := StoreLines(a), StoreLines(b), Remains(x);
    FlattenAppend(la + r, lb);
    FlattenAppend(la, r);
    FlattenAppend(la, lb);
    FlushedStart(unset);
    assert Flushed(Run(Start(unset), ls, x.tag)) == Flatten(la) + Flatten(r) + Flatten(lb);
    RemainsEmpty(x);
    InTheMiddle(Flatten(la), Flatten(r), Flatten(lb));
  }

  lemma FlushedStart(unset: int)
    ensures Flushed(Start(unset)) == ""
  {
  }

  lemma InTheMiddle(u: string, v: string, w: string)
    ensures u + v + w == u + w <==> v == ""
  {
    if u + v + w == u + w {
      assert |u + v + w| == |u + w|;
    }
    assert u + "" + w == u + w;
  }

  lemma RemainsEmpty(x: Message)
    ensures Flatten(Remains(x)) == "" <==> x.head == []
  {
  }

  lemma KeptOne(x: Message)
    ensures LinesKept([x], x.tag) == Remains(x)
  {
    assert [x][..0] == [];
  }

  lemma TagPresent(a: seq<Message>, x: Message, b: seq<Message>)
    ensures HasTag(a + [x] + b, x.tag)
  {
    assert (a + [x] + b)[|a|] == x;
  }
}
