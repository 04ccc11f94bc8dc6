/** A text file that is read line by line, overwritten in place and appended to. */
module LineFiles {
  import opened Text
  import opened TextFiles

  function Overwrite(data: string, off: nat, s: string): string
    requires off + |s| <= |data|
  {
    data[..off] + s + data[off + |s|..]
  }

  /** Writing over the start of a line changes that line alone. */
  lemma OverwriteLine(ls: seq<string>, i: nat, s: string)
    requires i < |ls| && |s| <= |ls[i]|
    ensures Offset(ls, i) + |s| <= |Flatten(ls)|
    ensures Overwrite(Flatten(ls), Offset(ls, i), s) == Flatten(ls[i := s + ls[i][|s|..]])
  {
    hide Flatten;
    var l := s + ls[i][|s|..];
    var ls' := ls[i := l];
    LineBytes(ls, i);
    FlattenAround(ls, i);
    FlattenAround(ls', i);
    assert ls'[..i] == ls[..i] && ls'[i + 1..] == ls[i + 1..];
    SpliceLine(Flatten(ls[..i]), ls[i], Flatten(ls[i + 1..]), s);
  }

  lemma SpliceLine(a: string, l: string, b: string, s: string)
    requires |s| <= |l|
    ensures var d := a + (l + [LF] + b);
            Overwrite(d, |a|, s) == a + (s + l[|s|..] + [LF] + b)
  {
  }

  lemma OffsetZero(ls: seq<string>)
    ensures Offset(ls, 0) == 0
  {
    assert ls[..0] == [];
  }

  lemma {:induction false} SameOffset(a: seq<string>, b: seq<string>, i: nat)
    requires |a| == |b| && i <= |a|
    requires forall j :: 0 <= j < i ==> |a[j]| == |b[j]|
    ensures Offset(a, i) == Offset(b, i)
  {
    hide Flatten;
    if i == 0 {
      OffsetZero(a);
      OffsetZero(b);
    } else {
      SameOffset(a, b, i - 1);
      LineBytes(a, i - 1);
      LineBytes(b, i - 1);
    }
  }

  lemma InLine(ls: seq<string>, i: nat, k: nat)
    requires i < |ls| && NoLF(ls) && k <= |ls[i]|
    ensures var p := Offset(ls, i);
            && p + k < |Flatten(ls)|
            && (Flatten(ls)[p + k] == LF <==> k == |ls[i]|)
            && p + |ls[i]| + 1 == Offset(ls, i + 1)
  {
    hide Flatten, Offset;
    LineBytes(ls, i);
    if k < |ls[i]| {
      assert Flatten(ls)[Offset(ls, i)..Offset(ls, i) + |ls[i]|][k] == ls[i][k];
    }
  }

  lemma LineWithNewline(ls: seq<string>, i: nat)
    requires i < |ls|
    ensures Offset(ls, i) <= Offset(ls, i + 1) <= |Flatten(ls)|
    ensures Flatten(ls)[Offset(ls, i)..Offset(ls, i + 1)] == ls[i] + [LF]
  {
    hide Flatten, Offset;
    LineBytes(ls, i);
    var s, p, e := Flatten(ls), Offset(ls, i), Offset(ls, i) + |ls[i]|;
    assert s[p..e + 1] == s[p..e] + [s[e]];
  }

  class LineFile {
    var data: string
    ghost var lines: seq<string>

    ghost predicate Valid()
      reads this
    {
      data == Flatten(lines) && NoLF(lines)
    }

    constructor ()
      ensures Valid() && lines == []
    {
      data, lines := "", [];
    }

    /** fgets at pos; the line with its newline, empty at the end of the file. */
    method ReadLine(pos: nat, ghost i: nat) returns (line: string, next: nat)
      requires Valid() && i <= |lines| && pos == Offset(lines, i)
      ensures i == |lines| ==> line == "" && next == pos
      ensures i < |lines| ==> line == lines[i] + [LF] && next == Offset(lines, i + 1) && next == pos + |line|
    {
      hide Flatten;
      OffsetEnds(lines);
      if i < |lines| {
        LineBytes(lines, i);
      }
      line, next := "", pos;
      while next < |data| && (next == pos || data[next - 1] != LF)
        invariant pos <= next <= |data|
        invariant line == data[pos..next]
        invariant i < |lines| ==> next <= Offset(lines, i + 1)
        invariant i < |lines| && next > pos ==> (data[next - 1] == LF <==> next == Offset(lines, i + 1))
        decreases |data| - next
      {
        if i < |lines| {
          InLine(lines, i, next - pos);
        }
        line := line + [data[next]];
        next := next + 1;
      }
      if i < |lines| {
        assert data[pos..next] == lines[i] + [LF] by {
          LineWithNewline(lines, i);
        }
      }
    }

    /** fwrite at an offset inside line i. */
    method WriteAt(off: nat, s: string, ghost i: nat)
      requires Valid() && i < |lines| && off == Offset(lines, i) && |s| <= |lines[i]| && LF !in s
      modifies this
      ensures Valid() && lines == old(lines)[i := s + old(lines)[i][|s|..]]
    {
      hide Flatten, Offset;
      OverwriteLine(lines, i, s);
      ghost var l := s + lines[i][|s|..];
      data := Overwrite(data, off, s);
      lines := lines[i := l];
    }

    method Append(s: string)
      requires Valid() && LF !in s
      modifies this
      ensures Valid() && lines == old(lines) + [s]
    {
      hide Flatten;
      FlattenAppend(lines, [s]);
      FlattenOne(s);
      data := data + (s + [LF]);
      lines := lines + [s];
    }
  }
}
