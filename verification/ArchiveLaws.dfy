/** Paths resolve through the INDEX files that make_indexes writes. */
module ArchiveLaws {
  import opened Text
  import opened AddressText
  import opened ArchiveIndex

  // ---------------------------------------------------------------- paths

  predicate GoodPart(c: string) { PlainWord(c) && SEP !in c && c[0] != MARK }

  predicate GoodPath(cs: seq<string>) { cs != [] && forall i :: 0 <= i < |cs| ==> GoodPart(cs[i]) }

  function PathText(cs: seq<string>): string
    requires cs != []
  {
    if |cs| == 1 then cs[0] else PathText(cs[..|cs| - 1]) + [SEP] + cs[|cs| - 1]
  }

  /** The k-th directory on a path; number 0 is the default archive. */
  function DirAt(root: string, cs: seq<string>, k: nat): string
    requires k <= |cs|
  {
    root + [SEP] + if k == 0 then DEFAULT_ARCHIVE else PathText(cs[..k])
  }

  function PartAt(cs: seq<string>, k: nat): string
    requires k <= |cs|
  {
    if k == 0 then DEFAULT_ARCHIVE else cs[k - 1]
  }

  lemma {:induction false} PathHead(cs: seq<string>)
    requires |cs| > 1
    ensures PathText(cs) == cs[0] + [SEP] + PathText(cs[1..])
  {
    var n := |cs| - 1;
    if n > 1 {
      PathHead(cs[..n]);
      assert cs[..n][1..] == cs[1..][..n - 1];
      Assoc3(cs[0] + [SEP], PathText(cs[1..][..n - 1]), [SEP] + cs[n]);
      assert PathText(cs[1..]) == PathText(cs[1..][..n - 1]) + [SEP] + cs[n];
    } else {
      assert cs[..1] == [cs[0]] && cs[1..] == [cs[1]];
    }
  }

  lemma Assoc3(a: string, b: string, c: string)
    ensures (a + b) + c == a + (b + c)
  {
  }

  lemma {:induction false} SlashesAppend(a: string, b: string)
    ensures Slashes(a + b) == Slashes(a) + Slashes(b)
  {
    if a == "" {
      assert a + b == b;
    } else {
      assert (a + b)[1..] == a[1..] + b;
      SlashesAppend(a[1..], b);
    }
  }

  lemma {:induction false} NoSlashes(a: string)
    requires SEP !in a
    ensures Slashes(a) == 0
  {
    if a != "" {
      NoSlashes(a[1..]);
    }
  }

  lemma {:induction false} PathSlashes(cs: seq<string>)
    requires GoodPath(cs)
    ensures Slashes(PathText(cs)) == |cs| - 1
  {
    hide PlainWord;
    var n := |cs| - 1;
    NoSlashes(cs[n]);
    if n > 0 {
      PathSlashes(cs[..n]);
      SlashesAppend(PathText(cs[..n]) + [SEP], cs[n]);
      SlashesAppend(PathText(cs[..n]), [SEP]);
      assert Slashes([SEP]) == 1 by {
        assert [SEP][1..] == "";
      }
    }
  }

  lemma {:induction false} BaseNameOf(x: string, c: string)
    requires SEP !in c
    ensures BaseName(x + [SEP] + c) == c
    decreases |x|
  {
    hide IndexOf, BaseName;
    var s := x + [SEP] + c;
    assert s[|x|] == SEP;
    var i := IndexOf(s, SEP);
    BaseNameStep(s);
    if i < |x| {
      assert s[i + 1..] == x[i + 1..] + [SEP] + c;
      BaseNameOf(x[i + 1..], c);
    } else {
      assert i == |x|;
      assert s[i + 1..] == c;
      BaseNameStep(c);
    }
  }

  lemma BaseNameStep(s: string)
    ensures BaseName(s) == if SEP in s then BaseName(s[IndexOf(s, SEP) + 1..]) else s
  {
    hide IndexOf;
  }

  lemma DirName(root: string, cs: seq<string>, k: nat)
    requires k <= |cs| && (cs == [] || GoodPath(cs))
    ensures BaseName(DirAt(root, cs, k)) == PartAt(cs, k)
  {
    hide PlainWord, PathText;
    if k <= 1 {
      assert k == 1 ==> cs[..1] == [cs[0]];
      PathOne(cs, k);
      BaseNameOf(root, PartAt(cs, k));
    } else {
      PathLast(cs, k);
      Assoc3(root + [SEP], PathText(cs[..k - 1]), [SEP] + cs[k - 1]);
      assert DirAt(root, cs, k) == (root + [SEP] + PathText(cs[..k - 1])) + [SEP] + cs[k - 1];
      BaseNameOf(root + [SEP] + PathText(cs[..k - 1]), cs[k - 1]);
    }
  }

  lemma PathOne(cs: seq<string>, k: nat)
    requires k <= |cs|
    ensures k == 1 ==> PathText(cs[..1]) == cs[0]
  {
  }

  lemma PathLast(cs: seq<string>, k: nat)
    requires 1 < k <= |cs|
    ensures PathText(cs[..k]) == PathText(cs[..k - 1]) + [SEP] + cs[k - 1]
  {
    assert cs[..k][..k - 1] == cs[..k - 1];
  }

  /** The directory below. */
  lemma DirBelow(root: string, cs: seq<string>, k: nat)
    requires 0 < k < |cs|
    ensures DirAt(root, cs, k + 1) == DirAt(root, cs, k) + [SEP] + cs[k]
  {
    hide PathText;
    PathLast(cs, k + 1);
  }

  // ---------------------------------------------------------------- splitting a clean path

  /** The slots for the directories below number k. */
  ghost predicate Slots(root: string, cs: seq<string>, k: nat, ds: seq<Option<string>>)
    requires k <= |cs|
  {
    |ds| == |cs| - k && forall i :: 0 <= i < |ds| ==> ds[i] == Some(DirAt(root, cs, k + 1 + i))
  }

  lemma SlotsCons(root: string, cs: seq<string>, k: nat, rest: seq<Option<string>>)
    requires k < |cs| && Slots(root, cs, k + 1, rest)
    ensures Slots(root, cs, k, [Some(DirAt(root, cs, k + 1))] + rest)
  {
    hide DirAt;
  }

  function Above(root: string, cs: seq<string>, k: nat): string
    requires k <= |cs|
  {
    if k == 0 then root else DirAt(root, cs, k)
  }

  lemma AboveNext(root: string, cs: seq<string>, k: nat)
    requires k < |cs|
    ensures Above(root, cs, k) + [SEP] + cs[k] == DirAt(root, cs, k + 1)
  {
    hide PathText;
    PathOne(cs, 1);
    if k > 0 {
      DirBelow(root, cs, k);
    }
  }

  lemma {:induction false} CleanDirsOn(root: string, cs: seq<string>, k: nat)
    requires GoodPath(cs) && k < |cs|
    ensures Slots(root, cs, k, DirsOn(Above(root, cs, k), PathText(cs[k..]), |cs| - k))
    decreases |cs| - k
  {
    hide GoodPart, DirsOn, PathText, DirAt, Above, Slots;
    var above, p := Above(root, cs, k), PathText(cs[k..]);
    CleanPart(cs, k);
    DirsStep(above, p, |cs| - k);
    AboveNext(root, cs, k);
    if k + 1 == |cs| {
      NoSlots(root, cs);
      SlotsCons(root, cs, k, []);
    } else {
      CleanDirsOn(root, cs, k + 1);
      AboveIs(root, cs, k + 1);
      SlotsCons(root, cs, k, DirsOn(DirAt(root, cs, k + 1), PathText(cs[k + 1..]), |cs| - k - 1));
    }
  }

  lemma NoSlots(root: string, cs: seq<string>)
    ensures Slots(root, cs, |cs|, []) && Nones(0) == []
  {
  }

  lemma AboveIs(root: string, cs: seq<string>, k: nat)
    requires 0 < k <= |cs|
    ensures Above(root, cs, k) == DirAt(root, cs, k)
  {
  }

  /** What the first slash of the rest of a path is. */
  lemma CleanPart(cs: seq<string>, k: nat)
    requires GoodPath(cs) && k < |cs|
    ensures var p := PathText(cs[k..]); var len := IndexOf(p, SEP);
            && p != "" && p[..len] == cs[k]
            && (k + 1 == |cs| ==> len == |p| && SkipSlashes(p[len..]) == "")
            && (k + 1 < |cs| ==>
                  len < |p| && p[len + 1..] == PathText(cs[k + 1..]) == SkipSlashes(p[len..]) && p[len + 1..] != "")
  {
    hide PathText;
    var p, c := PathText(cs[k..]), cs[k];
    assert GoodPart(c);
    if k + 1 == |cs| {
      assert cs[k..] == [c];
      assert p == c by {
        PathOne([c], 1);
        assert [c][..1] == [c];
      }
      IndexOfAbsent(c, SEP);
      assert p[|p|..] == "";
    } else {
      var t := PathText(cs[k + 1..]);
      PathHead(cs[k..]);
      assert cs[k..][1..] == cs[k + 1..];
      assert p == c + [SEP] + t;
      IndexOfIn(c, SEP, t);
      assert p[|c|..] == [SEP] + t && ([SEP] + t)[1..] == t;
      FirstOfPath(cs, k + 1);
      assert SkipSlashes(t) == t;
    }
  }

  lemma FirstOfPath(cs: seq<string>, k: nat)
    requires GoodPath(cs) && k < |cs|
    ensures var t := PathText(cs[k..]); t != "" && t[0] != SEP
  {
    hide PathText;
    assert GoodPart(cs[k]);
    if k + 1 == |cs| {
      assert cs[k..] == [cs[k]];
      PathOne([cs[k]], 1);
      assert [cs[k]][..1] == [cs[k]];
    } else {
      PathHead(cs[k..]);
    }
  }

  /** The directories of a clean path. */
  lemma CleanDirs(root: string, cs: seq<string>)
    requires GoodPath(cs)
    ensures var ds := DirsOf(root, PathText(cs));
            |ds| == |cs| + 1 && forall i :: 0 <= i < |ds| ==> ds[i] == Some(DirAt(root, cs, i))
  {
    hide GoodPart, DirsOn, PathText;
    PathSlashes(cs);
    CleanDirsOn(root, cs, 0);
    assert cs[0..] == cs;
    var ds, on := DirsOf(root, PathText(cs)), DirsOn(root, PathText(cs), |cs|);
    assert ds == [Some(DirAt(root, cs, 0))] + on;
    forall i | 0 < i < |ds| ensures ds[i] == Some(DirAt(root, cs, i)) {
      SlotAt(root, cs, on, i);
    }
  }

  lemma SlotAt(root: string, cs: seq<string>, on: seq<Option<string>>, i: nat)
    requires Slots(root, cs, 0, on) && 0 < i <= |on|
    ensures on[i - 1] == Some(DirAt(root, cs, i))
  {
    hide DirAt;
    assert on[i - 1] == Some(DirAt(root, cs, 0 + 1 + (i - 1)));
  }
}
