/** Text files as sequences of lines, and substring search in their bytes. */
module TextFiles {
  import opened Text

  /** The bytes of a file whose every line ends in a newline. */
  function Flatten(ls: seq<string>): string
  {
    if ls == [] then "" else ls[0] + [LF] + Flatten(ls[1..])
  }

  lemma {:induction false} FlattenAppend(a: seq<string>, b: seq<string>)
    ensures Flatten(a + b) == Flatten(a) + Flatten(b)
  {
    if a == [] {
      assert a + b == b;
    } else {
      assert (a + b)[1..] == a[1..] + b;
      FlattenAppend(a[1..], b);
      Assoc(a[0] + [LF], Flatten(a[1..]), Flatten(b));
    }
  }

  lemma Assoc(a: string, b: string, c: string)
    ensures a + (b + c) == (a + b) + c
  {
  }

  lemma FlattenOne(l: string)
    ensures Flatten([l]) == l + [LF]
  {
    assert [l][1..] == [];
    assert l + [LF] + "" == l + [LF];
  }

  /** Where line i starts. */
  function Offset(ls: seq<string>, i: nat): nat
    requires i <= |ls|
  {
    |Flatten(ls[..i])|
  }

  /** The bytes before, at and after line i. */
  lemma FlattenAround(ls: seq<string>, i: nat)
    requires i < |ls|
    ensures Flatten(ls) == Flatten(ls[..i]) + (ls[i] + [LF] + Flatten(ls[i + 1..]))
    ensures Offset(ls, i + 1) == Offset(ls, i) + |ls[i]| + 1
  {
    hide Flatten;
    var tail := ls[i..];
    FlattenAppend(ls[..i], tail);
    assert ls == ls[..i] + tail;
    FlattenHead(ls, i);
    FlattenAppend(ls[..i], [ls[i]]);
    assert ls[..i + 1] == ls[..i] + [ls[i]];
    FlattenOne(ls[i]);
  }

  lemma FlattenHead(ls: seq<string>, i: nat)
    requires i < |ls|
    ensures Flatten(ls[i..]) == ls[i] + [LF] + Flatten(ls[i + 1..])
  {
    assert ls[i..][1..] == ls[i + 1..];
  }

  lemma {:induction false} OffsetMonotone(ls: seq<string>, i: nat, j: nat)
    requires i < j <= |ls|
    ensures Offset(ls, i) < Offset(ls, j)
    ensures i + 1 < j ==> Offset(ls, i + 1) < Offset(ls, j)
  {
    hide Flatten;
    FlattenAround(ls, j - 1);
    if i < j - 1 {
      OffsetMonotone(ls, i, j - 1);
      FlattenAround(ls, i);
    }
  }

  // ---------------------------------------------------------------- substrings

  predicate OccursAt(s: string, p: nat, w: string) { p + |w| <= |s| && s[p..p + |w|] == w }

  predicate StartsWith(s: string, w: string) { |w| <= |s| && s[..|w|] == w }

  /** Where strstr(s + from, w) points. */
  function FirstAt(s: string, from: nat, w: string): (p: Option<nat>)
    ensures p.Some? ==> from <= p.value && OccursAt(s, p.value, w)
    ensures p.Some? ==> forall q :: from <= q < p.value ==> !OccursAt(s, q, w)
    ensures p.None? ==> forall q :: from <= q ==> !OccursAt(s, q, w)
    decreases |s| - from
  {
    if from + |w| > |s| then None
    else if OccursAt(s, from, w) then Some(from)
    else FirstAt(s, from + 1, w)
  }

  lemma FirstAtUnique(s: string, from: nat, w: string, p: nat)
    requires from <= p && OccursAt(s, p, w)
    requires forall q :: from <= q < p ==> !OccursAt(s, q, w)
    ensures FirstAt(s, from, w) == Some(p)
  {
    hide FirstAt, OccursAt;
  }

  lemma FirstAtNone(s: string, from: nat, w: string)
    requires forall q :: from <= q ==> !OccursAt(s, q, w)
    ensures FirstAt(s, from, w) == None
  {
    hide FirstAt, OccursAt;
  }

  // ---------------------------------------------------------------- newlines and lines

  lemma OffsetStep(ls: seq<string>, i: nat)
    requires 0 < i <= |ls|
    ensures Offset(ls, i) == |ls[0]| + 1 + Offset(ls[1..], i - 1)
  {
    assert ls[..i][0] == ls[0];
    assert ls[..i][1..] == ls[1..][..i - 1];
  }

  lemma OffsetEnds(ls: seq<string>)
    ensures Offset(ls, 0) == 0 && Offset(ls, |ls|) == |Flatten(ls)|
  {
    assert ls[..0] == [];
    assert ls[..|ls|] == ls;
  }

  /** Every newline of the file ends a line. */
  lemma {:induction false} NewlineEndsLine(ls: seq<string>, q: nat) returns (i: nat)
    requires NoLF(ls) && q < |Flatten(ls)| && Flatten(ls)[q] == LF
    ensures i < |ls| && Offset(ls, i + 1) == q + 1
  {
    var n := |ls[0]|;
    OffsetStep(ls, 1);
    OffsetEnds(ls[1..]);
    if q <= n {
      i := 0;
    } else {
      assert Flatten(ls)[q] == Flatten(ls[1..])[q - n - 1];
      var k := NewlineEndsLine(ls[1..], q - n - 1);
      i := k + 1;
      OffsetStep(ls, i + 1);
    }
  }

  /** Line i in the bytes of the file. */
  lemma LineBytes(ls: seq<string>, i: nat)
    requires i < |ls|
    ensures var s := Flatten(ls); var p := Offset(ls, i); var e := p + |ls[i]|;
            && e < |s| && s[p..e] == ls[i] && s[e] == LF
            && e + 1 == Offset(ls, i + 1)
            && s[..p] == Flatten(ls[..i]) && s[p..] == ls[i] + [LF] + Flatten(ls[i + 1..])
            && s[e + 1..] == Flatten(ls[i + 1..])
  {
    hide Flatten;
    FlattenAround(ls, i);
    Slices(Flatten(ls[..i]), ls[i], Flatten(ls[i + 1..]));
  }

  lemma Slices(a: string, l: string, b: string)
    ensures var s := a + (l + [LF] + b); var p := |a|; var e := p + |l|;
            && e < |s| && s[p..e] == l && s[e] == LF
            && s[..p] == a && s[p..] == l + [LF] + b && s[e + 1..] == b
  {
  }

  lemma NewlineBefore(ls: seq<string>, i: nat)
    requires 1 <= i <= |ls|
    ensures 1 <= Offset(ls, i) <= |Flatten(ls)| && Flatten(ls)[Offset(ls, i) - 1] == LF
  {
    hide Flatten;
    LineBytes(ls, i - 1);
  }

  /** The line after a newline, with the newline. */
  lemma NewlineThen(ls: seq<string>, i: nat)
    requires 1 <= i < |ls|
    ensures var q := Offset(ls, i) - 1;
            0 <= q <= |Flatten(ls)| && Flatten(ls)[q..] == [LF] + ls[i] + [LF] + Flatten(ls[i + 1..])
  {
    hide Flatten;
    NewlineBefore(ls, i);
    LineBytes(ls, i);
    var s, q := Flatten(ls), Offset(ls, i) - 1;
    assert s[q..] == [s[q]] + s[q + 1..];
  }

  lemma OccursInRest(s: string, q: nat, w: string)
    requires q <= |s|
    ensures OccursAt(s, q, w) <==> StartsWith(s[q..], w)
  {
    if q + |w| <= |s| {
      assert s[q..][..|w|] == s[q..q + |w|];
    }
  }

  lemma WholeLineOccurs(ls: seq<string>, i: nat)
    requires 1 <= i < |ls|
    ensures Offset(ls, i) >= 1 && OccursAt(Flatten(ls), Offset(ls, i) - 1, [LF] + ls[i] + [LF])
  {
    hide Flatten, Offset, OccursAt;
    NewlineBefore(ls, i);
    NewlineThen(ls, i);
    var w := [LF] + ls[i] + [LF];
    OccursInRest(Flatten(ls), Offset(ls, i) - 1, w);
    assert (w + Flatten(ls[i + 1..]))[..|w|] == w;
  }

  lemma PrefixOccurs(ls: seq<string>, i: nat, w: string)
    requires 1 <= i < |ls| && StartsWith(ls[i], w)
    ensures Offset(ls, i) >= 1 && OccursAt(Flatten(ls), Offset(ls, i) - 1, [LF] + w)
  {
    hide Flatten, Offset, OccursAt;
    NewlineBefore(ls, i);
    NewlineThen(ls, i);
    OccursInRest(Flatten(ls), Offset(ls, i) - 1, [LF] + w);
    var t := [LF] + ls[i] + [LF] + Flatten(ls[i + 1..]);
    assert t[..|w| + 1] == [LF] + w;
  }

  /** Which line an occurrence after a newline is in. */
  lemma OccurrenceLine(ls: seq<string>, q: nat, w: string) returns (i: nat)
    requires NoLF(ls) && w != "" && OccursAt(Flatten(ls), q, [LF] + w)
    ensures 1 <= i < |ls| && Offset(ls, i) == q + 1
    ensures StartsWith(ls[i] + [LF] + Flatten(ls[i + 1..]), w)
  {
    hide Flatten, Offset;
    var s := Flatten(ls);
    assert s[q] == (s[q..q + 1 + |w|])[0] == LF;
    i := NewlineEndsLine(ls, q);
    i := i + 1;
    OffsetEnds(ls);
    assert q + 1 < |s|;
    LineBytes(ls, i);
    assert s[q + 1..][..|w|] == s[q..q + 1 + |w|][1..];
  }

  lemma OccursIsPrefix(ls: seq<string>, q: nat, w: string) returns (i: nat)
    requires NoLF(ls) && w != "" && LF !in w && OccursAt(Flatten(ls), q, [LF] + w)
    ensures 1 <= i < |ls| && Offset(ls, i) == q + 1 && StartsWith(ls[i], w)
  {
    hide Flatten, Offset, OccursAt;
    i := OccurrenceLine(ls, q, w);
    var t := ls[i] + [LF] + Flatten(ls[i + 1..]);
    assert t[|ls[i]|] == LF && t[..|w|] == w;
    if |w| > |ls[i]| {
      assert false;
    }
    assert ls[i][..|w|] == t[..|w|];
  }

  lemma OccursIsWholeLine(ls: seq<string>, q: nat, l: string) returns (i: nat)
    requires NoLF(ls) && LF !in l && OccursAt(Flatten(ls), q, [LF] + l + [LF])
    ensures 1 <= i < |ls| && Offset(ls, i) == q + 1 && ls[i] == l
  {
    hide Flatten, Offset, OccursAt;
    assert [LF] + l + [LF] == [LF] + (l + [LF]);
    i := OccurrenceLine(ls, q, l + [LF]);
    SameLine(ls[i], l, Flatten(ls[i + 1..]));
  }

  lemma SameLine(a: string, l: string, rest: string)
    requires LF !in a && LF !in l && StartsWith(a + [LF] + rest, l + [LF])
    ensures a == l
  {
    var t := a + [LF] + rest;
    var u := l + [LF];
    assert t[..|u|] == u;
    IndexOfIn(a, LF, rest);
    assert forall j :: 0 <= j < |l| ==> t[j] == u[j] == l[j];
    assert t[|l|] == u[|l|] == LF;
    IndexOfUnique(t, LF, |l|);
    assert a == t[..|a|] && l == t[..|l|];
  }
}
