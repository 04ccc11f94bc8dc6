/** The lines of the subscribers table (SFT) and of the files table (FST) of an
    archive: what they list, and what they list when more is written behind them
    (commands/afd_fui.c, get_option_args in lplib/misc.c). */
module TableLines {
  import opened Text
  import opened TextFiles
  import opened AddressText

  datatype Kind = Sft | Fst

  /** What an SFT lists for a user is one word, `file///mode`; what an FST lists
      for a file is an address and a mode. */
  datatype Entry = Entry(key: string, mode: string)

  function Show(k: Kind, e: Entry): string
  {
    if k == Sft then e.key else e.key + [BLANK] + e.mode
  }

  const FOLD: string := " \\"
  const SLASH: char := '\\'

  // ---------------------------------------------------------------- one line

  predicate WordChar(c: char) { c != SLASH && c != ' ' && c != '\t' }

  function WordRun(s: string): (n: nat)
    ensures n <= |s| && (n < |s| ==> !WordChar(s[n])) && forall i :: 0 <= i < n ==> WordChar(s[i])
  {
    if s == "" || !WordChar(s[0]) then 0 else 1 + WordRun(s[1..])
  }

  /** get_option_args with " %[^\\ \t]"; the rest is behind the word. */
  function FirstWord(s: string): (r: Option<(Entry, string)>)
    ensures r.Some? ==> |r.value.1| < |s|
  {
    var t := SkipSpaces(s);
    var n := WordRun(t);
    if n == 0 then None else Some((Entry(t[..n], ""), t[n..]))
  }

  function Words(s: string): seq<Entry>
    decreases |s|
  {
    match FirstWord(s)
    case None => []
    case Some((e, rest)) => [e] + Words(rest)
  }

  /** get_option_args with an address, then with " %s"; the rest is behind the mode. */
  function FirstPair(s: string): (r: Option<(Entry, string)>)
    ensures r.Some? ==> |r.value.1| < |s|
  {
    var a := AddressOf(s);
    var m := SkipSpaces(SkipSpaces(s)[|a|..]);
    var n := WordLength(m);
    if a == "" || n == 0 then None else Some((Entry(a, m[..n]), m[n..]))
  }

  function Pairs(s: string): seq<Entry>
    decreases |s|
  {
    match FirstPair(s)
    case None => []
    case Some((e, rest)) => [e] + Pairs(rest)
  }

  function Entries(k: Kind, s: string): seq<Entry> { if k == Sft then Words(s) else Pairs(s) }

  /** The scan of a line leaves nothing over. */
  predicate PairsUp(s: string)
    decreases |s|
  {
    match FirstPair(s)
    case None => SkipSpaces(s) == ""
    case Some((_, rest)) => PairsUp(rest)
  }

  predicate Printable(s: string) { forall i :: 0 <= i < |s| ==> ' ' <= s[i] <= '~' || s[i] == '\t' }

  /** A line that is not continued. */
  predicate Plain(k: Kind, s: string)
  {
    Printable(s) && SLASH !in s && (k == Fst ==> PairsUp(s))
  }

  function Shown(k: Kind, e: Entry): string { [BLANK] + Show(k, e) }

  /** An entry that is read back. */
  predicate ValidEntry(k: Kind, e: Entry)
  {
    Plain(k, Shown(k, e)) && Entries(k, Shown(k, e)) == [e]
  }

  // ---------------------------------------------------------------- words

  lemma {:induction false} WordRunIs(w: string, rest: string)
    requires (forall i :: 0 <= i < |w| ==> WordChar(w[i])) && (rest == "" || !WordChar(rest[0]))
    ensures WordRun(w + rest) == |w|
  {
    if w == "" {
      assert w + rest == rest;
    } else {
      assert (w + rest)[1..] == w[1..] + rest;
      WordRunIs(w[1..], rest);
    }
  }

  lemma {:induction false} SkipMore(s: string, x: string)
    ensures SkipSpaces(s) != "" ==> SkipSpaces(s + x) == SkipSpaces(s) + x
    ensures SkipSpaces(s) == "" ==> SkipSpaces(s + x) == SkipSpaces(x)
  {
    if s == "" {
      assert s + x == x;
    } else {
      assert (s + x)[1..] == s[1..] + x;
      SkipMore(s[1..], x);
    }
  }

  lemma {:induction false} SkipIsTail(s: string)
    ensures var t := SkipSpaces(s); t == s[|s| - |t|..] && (t != "" ==> !IsSpace(t[0]))
  {
    if s != "" && IsSpace(s[0]) {
      SkipIsTail(s[1..]);
    }
  }

  lemma PrintableSkip(s: string)
    requires Printable(s)
    ensures Printable(SkipSpaces(s)) && (SkipSpaces(s) != "" && SLASH !in s ==> WordRun(SkipSpaces(s)) > 0)
  {
    SkipIsTail(s);
    var t := SkipSpaces(s);
    if t != "" {
      assert t[0] == s[|s| - |t|];
    }
  }

  lemma FirstWordMore(s: string, x: string)
    requires FirstWord(s).Some? && x != "" && x[0] == BLANK
    ensures var (e, rest) := FirstWord(s).value; FirstWord(s + x) == Some((e, rest + x))
  {
    hide SkipSpaces, WordRun;
    var t := SkipSpaces(s);
    var n := WordRun(t);
    SkipMore(s, x);
    assert t[..n] + (t[n..] + x) == t + x;
    WordRunIs(t[..n], t[n..] + x);
    assert (t + x)[n..] == t[n..] + x && (t + x)[..n] == t[..n];
  }

  lemma FirstWordValid(s: string)
    requires Printable(s) && FirstWord(s).Some?
    ensures var (e, rest) := FirstWord(s).value;
            ValidEntry(Sft, e) && Printable(rest) && (SLASH !in s ==> SLASH !in rest)
  {
    hide SkipSpaces, WordRun, ValidEntry;
    var t := SkipSpaces(s);
    var n := WordRun(t);
    SkipIsTail(s);
    OneWord(t[..n]);
  }

  /** What is written behind a line is read behind what the line lists. */
  lemma {:induction false} WordsMore(s: string, x: string)
    requires Printable(s) && SLASH !in s && x != "" && x[0] == BLANK
    ensures Words(s + x) == Words(s) + Words(x)
    decreases |s|
  {
    hide SkipSpaces, FirstWord;
    match FirstWord(s)
    case None =>
      NoFirstWord(s);
      SkipMore(s, x);
      WordsSame(s + x, x);
    case Some((e, rest)) =>
      FirstWordMore(s, x);
      FirstWordValid(s);
      WordsMore(rest, x);
  }

  lemma NoFirstWord(s: string)
    requires Printable(s) && SLASH !in s && FirstWord(s) == None
    ensures SkipSpaces(s) == ""
  {
    PrintableSkip(s);
  }

  lemma WordsNone(s: string)
    requires SkipSpaces(s) == ""
    ensures Words(s) == []
  {
  }

  lemma WordsSame(s: string, x: string)
    requires SkipSpaces(s) == SkipSpaces(x)
    ensures Words(s) == Words(x)
  {
  }

  lemma NoEntryInSlash(k: Kind)
    ensures Entries(k, FOLD) == []
  {
    var s := FOLD;
    assert s[1..] == "\\";
    assert SkipSpaces(s) == "\\";
    if k == Fst {
      var a := AddressOf(s);
      assert Scan("\\", 1, NO_NESTING) == (1, NO_NESTING);
      assert Scan("\\", 0, NO_NESTING) == (1, NO_NESTING);
      assert a == "\\";
      assert "\\"[1..] == "";
    }
  }

  // ---------------------------------------------------------------- addresses and modes

  lemma {:induction false} ScanMore(r: string, x: string, i: nat, n: Nesting)
    requires i <= |r| && Scan(r, i, n).0 < |r|
    ensures Scan(r + x, i, n) == Scan(r, i, n)
    decreases |r| - i
  {
    hide Stops;
    if r[i] != ',' {
      assert Advance(n, r + x, i) == Advance(n, r, i) && (r + x)[i] == r[i];
      var n' := Advance(n, r, i);
      if !Stops(n', r[i]) {
        ScanMore(r, x, i + 1, n');
      }
    }
  }

  lemma AddressMore(s: string, x: string)
    requires var a := AddressOf(s); a != "" && SkipSpaces(SkipSpaces(s)[|a|..]) != ""
    ensures AddressOf(s + x) == AddressOf(s)
  {
    hide Scan, SkipSpaces;
    var r := SkipSpaces(s);
    var a := AddressOf(s);
    SkipMore(s, x);
    var (k, n) := Scan(r, 0, NO_NESTING);
    if k == |r| {
      LastSpace(r, a);
    }
    ScanMore(r, x, 0, NO_NESTING);
    assert (r + x)[..|a|] == r[..|a|];
  }

  lemma LastSpace(r: string, a: string)
    requires |a| <= |r| && r[..|a|] == a && (|a| == |r| || (|a| + 1 == |r| && IsSpace(r[|a|])))
    ensures SkipSpaces(r[|a|..]) == ""
  {
    var t := r[|a|..];
    if t != "" {
      assert t == [r[|a|]] && t[1..] == "";
    }
  }

  lemma FirstPairMore(s: string, x: string)
    requires FirstPair(s).Some? && x != "" && x[0] == BLANK
    ensures var (e, rest) := FirstPair(s).value; FirstPair(s + x) == Some((e, rest + x))
  {
    hide SkipSpaces, WordLength, AddressOf;
    var a := AddressOf(s);
    var r := SkipSpaces(s);
    var t := r[|a|..];
    var m := SkipSpaces(t);
    var n := WordLength(m);
    AddressMore(s, x);
    SkipMore(s, x);
    assert (r + x)[|a|..] == t + x;
    SkipMore(t, x);
    assert m[..n] + (m[n..] + x) == m + x;
    WordLengthIs(m[..n], m[n..] + x);
    assert (m + x)[n..] == m[n..] + x && (m + x)[..n] == m[..n];
  }

  lemma {:induction false} PairsMore(s: string, x: string)
    requires PairsUp(s) && x != "" && x[0] == BLANK
    ensures Pairs(s + x) == Pairs(s) + Pairs(x)
    ensures PairsUp(s + x) <==> PairsUp(x)
    decreases |s|
  {
    hide FirstPair, SkipSpaces;
    match FirstPair(s)
    case None =>
      SkipMore(s, x);
      SameLine(s + x, x);
    case Some((e, rest)) =>
      FirstPairMore(s, x);
      PairsMore(rest, x);
  }

  lemma SameLine(s: string, x: string)
    requires SkipSpaces(s) == SkipSpaces(x)
    ensures Pairs(s) == Pairs(x) && PairsUp(s) == PairsUp(x)
  {
    assert AddressOf(s) == AddressOf(x);
  }

  // ---------------------------------------------------------------- entries read from a line are valid

  lemma SkipBlank(s: string)
    requires s != "" && !IsSpace(s[0])
    ensures SkipSpaces([BLANK] + s) == s && SkipSpaces(s) == s
  {
    assert ([BLANK] + s)[1..] == s;
  }

  lemma OneWord(w: string)
    requires w != "" && Printable(w) && forall i :: 0 <= i < |w| ==> WordChar(w[i])
    ensures ValidEntry(Sft, Entry(w, ""))
  {
    assert WordChar(w[0]) && Printable([w[0]]);
    SkipBlank(w);
    WordRunIs(w, "");
    assert w + "" == w;
    WordsNone("");
    assert w[|w|..] == "" && w[..|w|] == w;
  }

  lemma {:induction false} WordsValid(s: string, e: Entry)
    requires Printable(s) && e in Words(s)
    ensures ValidEntry(Sft, e)
    decreases |s|
  {
    hide FirstWord, ValidEntry;
    FirstWordValid(s);
    if e != FirstWord(s).value.0 {
      WordsValid(FirstWord(s).value.1, e);
    }
  }

  /** Scanning what was scanned, with a blank behind it. */
  lemma {:induction false} ScanAgain(r: string, x: string, i: nat, n: Nesting, c: nat)
    requires i <= c <= |r|
    requires var k := Scan(r, i, n);
             !Open(k.1) && if k.0 > i && IsSpace(r[k.0 - 1]) then c == k.0 - 1 else c == k.0
    ensures Scan(r[..c] + [BLANK] + x, i, n) == (c + 1, Scan(r, i, n).1)
    decreases |r| - i
  {
    var u := r[..c] + [BLANK] + x;
    if i == |r| || r[i] == ',' {
      assert u[i] == BLANK && Advance(n, u, i) == n;
    } else {
      var n' := Advance(n, r, i);
      if Stops(n', r[i]) {
        assert n' == n && u[i] == BLANK && Advance(n, u, i) == n;
      } else {
        ScanLast(r, i + 1, n');
        assert Advance(n, u, i) == n' && u[i] == r[i];
        ScanAgain(r, x, i + 1, n', c);
      }
    }
  }

  lemma ScanLast(r: string, i: nat, n: Nesting)
    requires 0 < i <= |r| && !Open(Scan(r, i, n).1) && !Stops(n, r[i - 1])
    ensures Scan(r, i, n).0 == i ==> !IsSpace(r[i - 1])
  {
  }

  lemma AddressAgain(s: string, x: string)
    requires AddressOf(s) != ""
    ensures var a := AddressOf(s); !IsSpace(a[0]) && AddressOf([BLANK] + a + [BLANK] + x) == a
  {
    hide Scan;
    var r, a := SkipSpaces(s), AddressOf(s);
    SkipIsTail(s);
    ScanAgain(r, x, 0, NO_NESTING, |a|);
    var u := r[..|a|] + [BLANK] + x;
    assert u == a + [BLANK] + x && u[..|a|] == a && u[|a|] == BLANK;
    SkipBlank(u);
    assert [BLANK] + u == [BLANK] + a + [BLANK] + x;
  }

  lemma OnePair(a: string, m: string)
    requires AddressOf([BLANK] + a + [BLANK] + m) == a != "" && !IsSpace(a[0])
    requires m != "" && forall i :: 0 <= i < |m| ==> !IsSpace(m[i])
    ensures var s := [BLANK] + (a + [BLANK] + m); Pairs(s) == [Entry(a, m)] && PairsUp(s)
  {
    hide Scan, AddressOf;
    var u := a + [BLANK] + m;
    var s := [BLANK] + u;
    assert s == [BLANK] + a + [BLANK] + m;
    SkipBlank(u);
    assert u[|a|..] == [BLANK] + m;
    SkipBlank(m);
    WordLengthIs(m, "");
    assert m + "" == m && m[..|m|] == m && m[|m|..] == "";
    NothingInNothing();
  }

  lemma NothingInNothing()
    ensures Pairs("") == [] && PairsUp("") && AddressOf("") == ""
  {
    assert SkipSpaces("") == "";
    assert Scan("", 0, NO_NESTING) == (0, NO_NESTING);
    assert FirstPair("") == None;
  }

  lemma FirstPairValid(s: string)
    requires Printable(s) && SLASH !in s && FirstPair(s).Some?
    ensures var (e, rest) := FirstPair(s).value; ValidEntry(Fst, e) && Printable(rest) && SLASH !in rest
  {
    hide AddressOf, SkipSpaces, WordLength, ValidEntry;
    var a := AddressOf(s);
    var r := SkipSpaces(s);
    var t := r[|a|..];
    var m := SkipSpaces(t);
    var n := WordLength(m);
    SkipIsTail(s);
    SkipIsTail(t);
    AddressAgain(s, m[..n]);
    OnePair(a, m[..n]);
    AddressPrefix(s);
    PairText(r, a, m[..n]);
    ValidIs(Entry(a, m[..n]));
  }

  lemma {:induction false} PairsValid(s: string, e: Entry)
    requires Printable(s) && SLASH !in s && e in Pairs(s)
    ensures ValidEntry(Fst, e)
    decreases |s|
  {
    hide FirstPair, ValidEntry;
    FirstPairValid(s);
    if e != FirstPair(s).value.0 {
      PairsValid(FirstPair(s).value.1, e);
    }
  }

  lemma AddressPrefix(s: string)
    ensures var a := AddressOf(s); (|a| <= |SkipSpaces(s)|) && a == SkipSpaces(s)[..|a|]
  {
  }

  lemma PairText(r: string, a: string, m: string)
    requires Printable(r) && SLASH !in r && |a| <= |r| && a == r[..|a|] && Printable(m) && SLASH !in m
    ensures var s := [BLANK] + (a + [BLANK] + m); Printable(s) && SLASH !in s
  {
  }

  lemma ValidIs(e: Entry)
    requires var s := [BLANK] + (e.key + [BLANK] + e.mode);
             Printable(s) && SLASH !in s && PairsUp(s) && Pairs(s) == [e]
    ensures ValidEntry(Fst, e)
  {
  }

  lemma EntriesValid(k: Kind, s: string)
    requires Plain(k, s)
    ensures forall e :: e in Entries(k, s) ==> ValidEntry(k, e)
  {
    hide ValidEntry, Words, Pairs;
    forall e | e in Entries(k, s) ensures ValidEntry(k, e) {
      if k == Sft {
        WordsValid(s, e);
      } else {
        PairsValid(s, e);
      }
    }
  }

  // ---------------------------------------------------------------- writing behind a line

  lemma EntriesMore(k: Kind, s: string, e: Entry)
    requires Plain(k, s) && ValidEntry(k, e)
    ensures Plain(k, s + Shown(k, e)) && Entries(k, s + Shown(k, e)) == Entries(k, s) + [e]
  {
    hide Words, Pairs, PairsUp, Show;
    if k == Sft {
      WordsMore(s, Shown(k, e));
    } else {
      PairsMore(s, Shown(k, e));
    }
  }

  lemma EntriesSlash(k: Kind, s: string)
    requires Plain(k, s)
    ensures Entries(k, s + FOLD) == Entries(k, s)
  {
    hide Words, Pairs, PairsUp;
    NoEntryInSlash(k);
    if k == Sft {
      WordsMore(s, FOLD);
    } else {
      PairsMore(s, FOLD);
    }
  }

  lemma EmptyLine(k: Kind)
    ensures Plain(k, "") && Entries(k, "") == []
  {
    NothingInNothing();
    WordsNone("");
  }
}
