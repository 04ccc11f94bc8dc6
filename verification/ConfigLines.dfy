/** Each line of a list's configuration file, read back. */
module ConfigLines {
  import opened Text
  import opened TextFiles
  import opened AddressText
  import opened Numbers
  import TableLines
  import opened ListConfig

  // ---------------------------------------------------------------- words

  lemma {:induction false} SkipEnds(s: string)
    ensures var t := SkipSpaces(s); t != "" ==> !IsSpace(t[0]) && WordLength(t) > 0
  {
    if s != "" && IsSpace(s[0]) {
      SkipEnds(s[1..]);
    }
  }

  lemma NextBehind(s: string, x: string)
    requires x != "" && x[0] == BLANK
    ensures NextWord(s).Some? ==> NextWord(s + x) == Some((NextWord(s).value.0, NextWord(s).value.1 + x))
    ensures NextWord(s).None? ==> NextWord(s + x) == NextWord(x)
  {
    hide SkipSpaces, WordLength;
    TableLines.SkipMore(s, x);
    SkipEnds(s);
    var t := SkipSpaces(s);
    if t != "" {
      var n := WordLength(t);
      assert t[..n] + (t[n..] + x) == t + x;
      WordLengthIs(t[..n], t[n..] + x);
      assert (t + x)[n..] == t[n..] + x && (t + x)[..n] == t[..n];
    }
  }

  /** What is written behind a blank is read behind the words before it. */
  lemma {:induction false} WordsBehind(s: string, x: string)
    requires x != "" && x[0] == BLANK
    ensures WordsIn(s + x) == WordsIn(s) + WordsIn(x)
    decreases |s|
  {
    hide NextWord;
    NextBehind(s, x);
    if NextWord(s).Some? {
      WordsBehind(NextWord(s).value.1, x);
    }
  }

  lemma BlankWord(w: string)
    requires w == "" || PlainWord(w)
    ensures WordsIn([BLANK] + w) == if w == "" then [] else [w]
    ensures WordsIn(w) == if w == "" then [] else [w]
  {
    hide WordLength, WordsIn;
    assert ([BLANK] + w)[1..] == w;
    NoneIn();
    if w != "" {
      assert SkipSpaces(w) == w == SkipSpaces([BLANK] + w);
      WordLengthIs(w, "");
      assert w + "" == w && w[|w|..] == "" && w[..|w|] == w;
      OneIn(w, w);
      OneIn([BLANK] + w, w);
    } else {
      assert SkipSpaces([BLANK] + w) == "";
      NothingIn([BLANK] + w);
    }
  }

  lemma OneIn(s: string, w: string)
    requires NextWord(s) == Some((w, ""))
    ensures WordsIn(s) == [w]
  {
    hide NextWord;
    NoneIn();
  }

  lemma NothingIn(s: string)
    requires SkipSpaces(s) == ""
    ensures WordsIn(s) == []
  {
  }

  lemma NoneIn()
    ensures WordsIn("") == []
  {
    assert SkipSpaces("") == "";
  }

  predicate Words0(ws: seq<string>) { forall i :: 0 <= i < |ws| ==> ws[i] == "" || PlainWord(ws[i]) }

  function NonEmpty(ws: seq<string>): seq<string>
  {
    if ws == [] then []
    else NonEmpty(ws[..|ws| - 1]) + if ws[|ws| - 1] == "" then [] else [ws[|ws| - 1]]
  }

  lemma {:induction false} WordsSpaced(ws: seq<string>)
    requires Words0(ws)
    ensures WordsIn(Spaced(ws)) == NonEmpty(ws)
  {
    hide PlainWord, WordsIn;
    if ws == [] {
      NoneIn();
    } else {
      var n := |ws| - 1;
      BlankWord(ws[n]);
      WordsSpaced(ws[..n]);
      if n == 0 {
        assert NonEmpty(ws[..0]) == [];
      } else {
        WordsBehind(Spaced(ws[..n]), [BLANK] + ws[n]);
        assert Spaced(ws) == Spaced(ws[..n]) + ([BLANK] + ws[n]);
      }
    }
  }

  predicate PlainWords(ws: seq<string>) { forall i :: 0 <= i < |ws| ==> PlainWord(ws[i]) }

  lemma {:induction false} NonEmptyPlain(ws: seq<string>)
    requires PlainWords(ws)
    ensures NonEmpty(ws) == ws && Words0(ws)
  {
    if ws != [] {
      NonEmptyPlain(ws[..|ws| - 1]);
    }
  }

  lemma {:induction false} SpacedHead(w: string, ws: seq<string>)
    requires ws != []
    ensures Spaced([w] + ws) == w + [BLANK] + Spaced(ws)
  {
    var n := |ws| - 1;
    assert ([w] + ws)[..n + 1] == [w] + ws[..n];
    if n > 0 {
      SpacedHead(w, ws[..n]);
      Assoc(w + [BLANK], Spaced(ws[..n]), [BLANK] + ws[n]);
      assert Spaced(ws) == Spaced(ws[..n]) + ([BLANK] + ws[n]);
    } else {
      assert ws[..0] == [];
    }
  }

  /** A line of a command and some text. */
  lemma LineActs(env: Env, alias: string, c: Conf, cmd: string, args: string)
    requires PlainWord(cmd)
    ensures Directive(env, alias, c, cmd + [BLANK] + args) == Act(env, alias, c, cmd, args)
  {
    hide Act, RestAfter;
    var line := cmd + [BLANK] + args;
    assert line == cmd + ([BLANK] + args);
    FirstField(cmd, [BLANK] + args);
    assert line[|cmd| + 1..] == args;
  }

  // ---------------------------------------------------------------- numbers

  lemma AtolDecInt(n: int)
    ensures IsNumber(DecInt(n)) && StartsNumber(DecInt(n)) && Atol(DecInt(n)) == n && PlainWord(DecInt(n))
  {
    hide Dec, Atoi;
    var m := if n < 0 then -n else n;
    DecDigits(m);
    AtoiDec(m);
    AtolDec(m, "");
    assert Dec(m) + "" == Dec(m);
    var w := DecInt(n);
    assert forall i :: 0 <= i < |Dec(m)| ==> IsDigit(Dec(m)[i]);
    if n < 0 {
      assert w == "-" + Dec(m) && w[1..] == Dec(m);
      assert SkipSpaces(w) == w;
      assert forall i :: 1 <= i < |w| ==> w[i] == Dec(m)[i - 1];
    }
  }

  lemma DecIsDecInt(n: nat)
    ensures Dec(n) == DecInt(n)
  {
  }

  function Printed(ns: seq<int>): seq<string>
  {
    if ns == [] then [] else [DecInt(ns[0])] + Printed(ns[1..])
  }

  lemma {:induction false} NumbersPrinted(ns: seq<int>)
    ensures NumbersIn(Printed(ns)) == ns && PlainWords(Printed(ns))
  {
    hide DecInt, Atol, IsNumber, StartsNumber, PlainWord;
    if ns != [] {
      AtolDecInt(ns[0]);
      NumbersPrinted(ns[1..]);
      var ws := Printed(ns);
      assert ws[1..] == Printed(ns[1..]);
    }
  }

  /** Numbers are read up to the first word that starts none, */
  lemma {:induction false} NumbersStop(ns: seq<int>, w: string, rest: seq<string>)
    requires w == "" || (!IsDigit(w[0]) && ((w[0] == '-' || w[0] == '+') ==> |w| == 1 || !IsDigit(w[1])))
    ensures NumbersIn(Printed(ns) + [w] + rest) == ns
  {
    hide DecInt, Atol;
    if ns == [] {
      assert [] + [w] + rest == [w] + rest;
    } else {
      AtolDecInt(ns[0]);
      NumbersStop(ns[1..], w, rest);
      assert (Printed(ns) + [w] + rest)[1..] == Printed(ns[1..]) + [w] + rest;
    }
  }

  /** and a word that starts one and goes on with something else is the last. */
  lemma NumberAndMore(n: nat, x: string, rest: seq<string>)
    requires x != "" && !IsDigit(x[0])
    ensures NumbersIn([Dec(n) + x] + rest) == [n as int]
  {
    hide Dec, Atol;
    var w := Dec(n) + x;
    DecDigits(n);
    AtolDec(n, x);
    assert IsDigit(w[0]);
    assert w[|Dec(n)|] == x[0];
  }

  // ---------------------------------------------------------------- lines of words

  predicate GoodAlias(alias: string)
  {
    && PlainWord(alias) && Upcase(alias) == alias
    && Locase(alias) !in {"server", "system_wide", "for_list_mail", "for_mail_requests"}
  }

  /** A line of words: what the directive sees of it. */
  lemma WordLine(env: Env, alias: string, c: Conf, cmd: string, ws: seq<string>)
    requires PlainWord(cmd) && GoodAlias(alias) && Words0(ws)
    ensures var args := Spaced([alias] + ws);
            && Spaced([cmd, alias] + ws) == cmd + [BLANK] + args
            && Directive(env, alias, c, Spaced([cmd, alias] + ws)) == Act(env, alias, c, cmd, args)
            && WordsIn(args) == [alias] + NonEmpty(ws)
  {
    hide Act, Spaced, WordsIn, NonEmpty, PlainWord, Upcase, Locase, NoList;
    SpacedHead(cmd, [alias] + ws);
    assert [cmd, alias] + ws == [cmd] + ([alias] + ws);
    LineActs(env, alias, c, cmd, Spaced([alias] + ws));
    Words0Cons(alias, ws);
    WordsSpaced([alias] + ws);
    NonEmptyHead(alias, ws);
  }

  lemma Words0Cons(w: string, ws: seq<string>)
    requires PlainWord(w) && Words0(ws)
    ensures Words0([w] + ws) && w != ""
  {
    hide PlainWord;
    assert PlainWord(w) ==> w != "" by {
      PlainNonEmpty(w);
    }
  }

  lemma PlainNonEmpty(w: string)
    ensures PlainWord(w) ==> w != ""
  {
  }

  lemma {:induction false} NonEmptyHead(w: string, ws: seq<string>)
    requires w != ""
    ensures NonEmpty([w] + ws) == [w] + NonEmpty(ws)
  {
    if ws == [] {
      assert [w] + ws == [w] && [w][..0] == [];
      assert NonEmpty([]) == [];
    } else {
      var n := |ws| - 1;
      assert ([w] + ws)[..n + 1] == [w] + ws[..n];
      NonEmptyHead(w, ws[..n]);
    }
  }

  /** A line of numbers. */
  lemma NumberLine(env: Env, alias: string, c: Conf, cmd: string, ns: seq<int>)
    requires PlainWord(cmd) && GoodAlias(alias)
    ensures var args := Spaced([alias] + Printed(ns));
            && Directive(env, alias, c, Spaced([cmd, alias] + Printed(ns))) == Act(env, alias, c, cmd, args)
            && WordsIn(args) == [alias] + Printed(ns) && NumbersIn(WordsIn(args)[1..]) == ns
  {
    hide Act, Spaced, WordsIn, NonEmpty, PlainWord, Printed, Directive, NumbersIn;
    NumbersPrinted(ns);
    NonEmptyPlain(Printed(ns));
    WordLine(env, alias, c, cmd, Printed(ns));
    assert ([alias] + Printed(ns))[1..] == Printed(ns);
  }

  lemma PrintedOne(n: int)
    ensures Printed([n]) == [DecInt(n)]
  {
    hide DecInt;
    assert [n][1..] == [];
  }

  lemma PrintedTwo(m: int, n: int)
    ensures Printed([m, n]) == [DecInt(m), DecInt(n)]
  {
    hide DecInt;
    PrintedOne(n);
    assert [m, n][1..] == [n];
  }

  lemma PrintedThree(k: int, m: int, n: int)
    ensures Printed([k, m, n]) == [DecInt(k), DecInt(m), DecInt(n)]
  {
    hide DecInt;
    PrintedTwo(m, n);
    assert [k, m, n][1..] == [m, n];
  }

  lemma ReadCreated(env: Env, alias: string, c: Conf, n: int)
    requires GoodAlias(alias)
    ensures Directive(env, alias, c, Spaced(["creation_date", alias, DecInt(n)])) == Done(c.(created := n))
  {
    hide Spaced, WordsIn, NumbersIn, PlainWord, Upcase, Locase, DecInt, Printed, NoList, Directive;
    PlainCommand("creation_date");
    PrintedOne(n);
    NumberLine(env, alias, c, "creation_date", [n]);
    assert ["creation_date", alias] + [DecInt(n)] == ["creation_date", alias, DecInt(n)];
  }

  predicate Letter(c: char) { 'a' <= c <= 'z' || c == '_' || c == '-' || c == '2' }

  lemma PlainCommand(cmd: string)
    requires cmd != "" && forall i :: 0 <= i < |cmd| ==> Letter(cmd[i])
    ensures PlainWord(cmd)
  {
  }

  lemma ReadMask(env: Env, alias: string, c: Conf, m0: bv32, m1: bv32)
    requires GoodAlias(alias)
    ensures Directive(env, alias, c, Spaced(["mask", alias, Dec(m0 as nat), Dec(m1 as nat)])) ==
            Done(c.(mask0 := m0, mask1 := m1))
  {
    hide Spaced, WordsIn, NumbersIn, PlainWord, Upcase, Locase, DecInt, Dec, Printed, NoList, Directive, ToMask;
    var a, b := m0 as nat, m1 as nat;
    PlainCommand("mask");
    DecIsDecInt(a);
    DecIsDecInt(b);
    PrintedTwo(a, b);
    NumberLine(env, alias, c, "mask", [a, b]);
    assert ["mask", alias] + [DecInt(a), DecInt(b)] == ["mask", alias, DecInt(a), DecInt(b)];
    MaskBack(m0);
    MaskBack(m1);
  }

  lemma MaskBack(m: bv32)
    ensures ToMask(m as nat) == m
  {
  }

  lemma ReadSetDisable(env: Env, alias: string, c: Conf, n: int)
    requires GoodAlias(alias)
    ensures Directive(env, alias, c, Spaced(["set-disable", alias, DecInt(n)])) == Done(c.(setDisable := n))
  {
    hide Spaced, WordsIn, NumbersIn, PlainWord, Upcase, Locase, DecInt, Printed, NoList, Directive;
    PlainCommand("set-disable");
    PrintedOne(n);
    NumberLine(env, alias, c, "set-disable", [n]);
    assert ["set-disable", alias] + [DecInt(n)] == ["set-disable", alias, DecInt(n)];
  }

  lemma ReadDigest(env: Env, alias: string, c: Conf, t: int, l: int, b: int)
    requires GoodAlias(alias)
    ensures Directive(env, alias, c, Spaced(["digest", alias, DecInt(t), DecInt(l), DecInt(b)])) ==
            Done(c.(digestTime := t, digestLines := l, digestBytes := b))
  {
    hide Spaced, WordsIn, NumbersIn, PlainWord, Upcase, Locase, DecInt, Printed, NoList, Directive;
    PlainCommand("digest");
    PrintedThree(t, l, b);
    NumberLine(env, alias, c, "digest", [t, l, b]);
    assert ["digest", alias] + [DecInt(t), DecInt(l), DecInt(b)] == ["digest", alias, DecInt(t), DecInt(l), DecInt(b)];
  }

  lemma ReadCeiling(env: Env, alias: string, c: Conf, n: int)
    requires GoodAlias(alias)
    ensures Directive(env, alias, c, Spaced(["ceiling", alias, DecInt(n)])) ==
            Done(c.(ceiling := n, mask0 := With(c.mask0, LIST_CEILING)))
  {
    hide Spaced, WordsIn, NumbersIn, PlainWord, Upcase, Locase, DecInt, Printed, NoList, Directive, With;
    PlainCommand("ceiling");
    PrintedOne(n);
    NumberLine(env, alias, c, "ceiling", [n]);
    assert ["ceiling", alias] + [DecInt(n)] == ["ceiling", alias, DecInt(n)];
  }

  /** The list leaves one thread of the system to the others, if there are more. */
  lemma ReadThreads(env: Env, alias: string, c: Conf, n: int)
    requires GoodAlias(alias)
    ensures var r := Directive(env, alias, c, Spaced(["threads", alias, DecInt(n)]));
            && (n <= 0 ==> r == Fatal)
            && (n == 1 || 1 < n < env.nthreads ==> r == Done(c.(threads := n)))
            && (n > 1 && n >= env.nthreads > 1 ==> r == Done(c.(threads := env.nthreads - 1)))
            && (n > 1 >= env.nthreads ==> r == Done(c.(threads := 1)))
  {
    hide Spaced, WordsIn, NumbersIn, PlainWord, Upcase, Locase, DecInt, Printed, Directive;
    PlainCommand("threads");
    PrintedOne(n);
    NumberLine(env, alias, c, "threads", [n]);
    assert ["threads", alias] + [DecInt(n)] == ["threads", alias, DecInt(n)];
  }

  /** The threads of the system are not those of a list, whatever it is called; so a
      list of such a name never gets its own. */
  lemma ThreadsOfSystem(env: Env, alias: string, c: Conf, name: string, n: int)
    requires Locase(name) in {"system_wide", "for_list_mail", "for_mail_requests"} && PlainWord(name)
    ensures Directive(env, alias, c, Spaced(["threads", name, DecInt(n)])) == Done(c)
  {
    hide Spaced, WordsIn, NumbersIn, PlainWord, Upcase, DecInt, Directive;
    PlainCommand("threads");
    AtolDecInt(n);
    NameFirst(env, alias, c, "threads", name, [DecInt(n)]);
    assert ["threads", name] + [DecInt(n)] == ["threads", name, DecInt(n)];
  }

  /** Nor is the comment of the server that of a list. */
  lemma CommentOfServer(env: Env, alias: string, c: Conf, name: string, text: string)
    requires Locase(name) == "server" && PlainWord(name)
    ensures Directive(env, alias, c, "comment " + name + " " + text) == Done(c)
  {
    hide WordsIn, NumbersIn, PlainWord, Upcase, Directive, RestAfter, TextAfter;
    PlainCommand("comment");
    TextLine(env, alias, c, "comment", name, text);
    assert "comment" + " " + name + " " + text == "comment " + name + " " + text;
  }

  lemma NameFirst(env: Env, alias: string, c: Conf, cmd: string, name: string, ws: seq<string>)
    requires PlainWord(cmd) && PlainWord(name) && |ws| == 1 && PlainWord(ws[0])
    ensures var args := Spaced([name] + ws);
            && Directive(env, alias, c, Spaced([cmd, name] + ws)) == Act(env, alias, c, cmd, args)
            && WordsIn(args) == [name] + ws
  {
    hide Act, Spaced, WordsIn, NonEmpty, PlainWord;
    SpacedHead(cmd, [name] + ws);
    assert [cmd, name] + ws == [cmd] + ([name] + ws);
    LineActs(env, alias, c, cmd, Spaced([name] + ws));
    PlainNonEmpty(ws[0]);
    NonEmptyPlain(ws);
    Words0Cons(name, ws);
    WordsSpaced([name] + ws);
    NonEmptyHead(name, ws);
  }

  /** A password that is one word; without it the name of the list is taken. */
  lemma ReadPasswd(env: Env, alias: string, c: Conf, password: string)
    requires GoodAlias(alias) && (password == "" || PlainWord(password))
    ensures Directive(env, alias, c, Spaced(["passwd", alias, password])) ==
            Done(c.(password := if password == "" then alias else password))
  {
    hide Spaced, WordsIn, NumbersIn, PlainWord, Upcase, Locase, NoList, Directive;
    PlainCommand("passwd");
    WordLine(env, alias, c, "passwd", [password]);
    assert ["passwd", alias] + [password] == ["passwd", alias, password];
    assert [password][..0] == [];
    assert NonEmpty([]) == [];
    assert NonEmpty([password]) == if password == "" then [] else [password];
  }

  // ---------------------------------------------------------------- lines of text

  /** A line whose text may hold blanks. */
  lemma TextLine(env: Env, alias: string, c: Conf, cmd: string, name: string, text: string)
    requires PlainWord(cmd) && PlainWord(name)
    ensures var args := name + [BLANK] + text;
            && Directive(env, alias, c, cmd + " " + name + " " + text) == Act(env, alias, c, cmd, args)
            && RestAfter(args) == [BLANK] + text
            && (text != "" && !IsSpace(text[0]) ==> TextAfter(args) == text)
            && WordsIn(args) != [] && WordsIn(args)[0] == name
  {
    hide Act, WordsIn, Directive, RestAfter;
    var args := name + [BLANK] + text;
    var x := [BLANK] + text;
    assert cmd + " " + name + " " + text == cmd + [BLANK] + args;
    LineActs(env, alias, c, cmd, args);
    assert args == name + x;
    FirstField(name, x);
    if text != "" && !IsSpace(text[0]) {
      TableLines.SkipBlank(text);
    }
    WordsBehind(name, x);
    BlankWord(name);
  }

  lemma ReadComment(env: Env, alias: string, c: Conf, text: string)
    requires GoodAlias(alias) && text != "" && !IsSpace(text[0]) && text[0] != '#'
    ensures Directive(env, alias, c, "comment " + alias + " " + text) ==
            Done(c.(comment := text, mask0 := With(c.mask0, LIST_COMMENT)))
  {
    hide WordsIn, NumbersIn, PlainWord, Upcase, Locase, NoList, Directive, RestAfter, TextAfter, With;
    PlainCommand("comment");
    TextLine(env, alias, c, "comment", alias, text);
    assert "comment" + " " + alias + " " + text == "comment " + alias + " " + text;
  }

  /** A comment that begins with the comment character gets a blank in its place. */
  lemma ReadSharpComment(env: Env, alias: string, c: Conf, text: string)
    requires GoodAlias(alias)
    ensures Directive(env, alias, c, "comment " + alias + " #" + text) ==
            Done(c.(comment := " " + text, mask0 := With(c.mask0, LIST_COMMENT)))
  {
    hide WordsIn, NumbersIn, PlainWord, Upcase, Locase, NoList, Directive, RestAfter, TextAfter, With;
    PlainCommand("comment");
    TextLine(env, alias, c, "comment", alias, "#" + text);
    assert "comment" + " " + alias + " " + ("#" + text) == "comment " + alias + " #" + text;
    assert ("#" + text)[1..] == text;
  }

  lemma ReadKeywords(env: Env, alias: string, c: Conf, text: string)
    requires GoodAlias(alias) && text != "" && !IsSpace(text[0])
    ensures Directive(env, alias, c, "keywords " + alias + " " + text) == Done(c.(keywords := text))
  {
    hide WordsIn, NumbersIn, PlainWord, Upcase, Locase, NoList, Directive, RestAfter, TextAfter;
    PlainCommand("keywords");
    TextLine(env, alias, c, "keywords", alias, text);
    assert "keywords" + " " + alias + " " + text == "keywords " + alias + " " + text;
  }

  lemma SpacedThree(a: string, b: string, x: string)
    ensures Spaced([a, b, x]) == a + " " + b + " " + x
  {
    assert [a, b, x][..2] == [a, b] && [a, b][..1] == [a];
    assert Spaced([a]) == a && Spaced([a, b]) == a + [BLANK] + b;
  }

  predicate ReadsBack(a: string) { AddressOf([BLANK] + a) == a }

  lemma ReadModerator(env: Env, alias: string, c: Conf, a: string)
    requires GoodAlias(alias) && ReadsBack(a)
    ensures Directive(env, alias, c, Spaced(["moderator", alias, a])) ==
            Done(c.(moderators := c.moderators + a + [BLANK], mask0 := With(c.mask0, LIST_MODERATED)))
  {
    hide WordsIn, NumbersIn, PlainWord, Upcase, Locase, NoList, Directive, RestAfter, AddressOf, Spaced, With;
    PlainCommand("moderator");
    SpacedThree("moderator", alias, a);
    TextLine(env, alias, c, "moderator", alias, a);
  }

  lemma ReadManager(env: Env, alias: string, c: Conf, a: string)
    requires GoodAlias(alias) && ReadsBack(a)
    ensures Directive(env, alias, c, Spaced(["subscription_manager", alias, a])) ==
            Done(c.(managers := c.managers + a + [BLANK]))
  {
    hide WordsIn, NumbersIn, PlainWord, Upcase, Locase, NoList, Directive, RestAfter, AddressOf, Spaced;
    PlainCommand("subscription_manager");
    SpacedThree("subscription_manager", alias, a);
    TextLine(env, alias, c, "subscription_manager", alias, a);
  }

  lemma ReadErrorsTo(env: Env, alias: string, c: Conf, a: string)
    requires GoodAlias(alias) && ReadsBack(a)
    ensures Directive(env, alias, c, Spaced(["errors-to", alias, a])) == Done(c.(errorsTo := c.errorsTo + a + [BLANK]))
  {
    hide WordsIn, NumbersIn, PlainWord, Upcase, Locase, NoList, Directive, RestAfter, AddressOf, Spaced;
    PlainCommand("errors-to");
    SpacedThree("errors-to", alias, a);
    TextLine(env, alias, c, "errors-to", alias, a);
  }

  // ---------------------------------------------------------------- archive

  /** An archive that a line can hold. */
  predicate ArchiveOk(c: Conf)
  {
    && PlainWord(c.archDir) && FirstIs(c.archDir, '/') && PlainWord(c.archSpec)
    && PlainWord(c.farchDir) && !FirstIs(c.farchDir, '/') && !FirstIs(c.farchDir, '-')
    && (c.archPass == "" || (PlainWord(c.archPass) && c.archPass != "-"))
  }

  /** What the reader makes of the archive line: the archive bits of the two masks
      are those of the printed list, but for a list with both. */
  lemma ReadArchive(env: Env, alias: string, was: Conf, c: Conf)
    requires GoodAlias(alias) && ArchiveOk(c)
    ensures Directive(env, alias, was, ArchiveLine(alias, c)) ==
            Done(was.(archDir := c.archDir, archSpec := c.archSpec, farchDir := c.farchDir, archPass := c.archPass,
                      mask0 := var m := With(was.mask0, LIST_ARCHIVE);
                               if Has(c.mask0, LIST_ARCHIVE_DIGEST) then WithArchiveDigest(m) else m))
  {
    hide WordsIn, NumbersIn, PlainWord, Upcase, Locase, NoList, Directive, Spaced, With, Has, WithArchiveDigest,
         NonEmpty, StartsWith;
    var digest := Has(c.mask0, LIST_ARCHIVE_DIGEST);
    var pass := if c.archPass == "" then (if digest then "-" else "") else c.archPass;
    var last := if digest then "digest" else "";
    var ws := [c.archDir, c.archSpec, c.farchDir, pass, last];
    PlainCommand("archive");
    PlainCommand("-");
    ArchiveWords(c.archDir, c.archSpec, c.farchDir, pass, last);
    WordLine(env, alias, was, "archive", ws);
    assert ["archive", alias] + ws == ["archive", alias, c.archDir, c.archSpec, c.farchDir, pass, last];
    DigestWord();
    PlainNonEmpty(c.archDir);
    PlainNonEmpty(c.farchDir);
  }

  lemma DigestWord()
    ensures StartsWith("digests", Locase("digest"))
  {
    assert Locase("digest") == "digest";
    assert "digests"[..6] == "digest";
  }

  lemma ArchiveWords(a: string, b: string, f: string, p: string, l: string)
    requires PlainWord(a) && PlainWord(b) && PlainWord(f) && (p == "" || PlainWord(p)) && (l == "" || l == "digest")
    requires p == "" ==> l == ""
    ensures var ws := [a, b, f, p, l];
            Words0(ws) && NonEmpty(ws) == [a, b, f] + (if p == "" then [] else [p]) + (if l == "" then [] else [l])
  {
    PlainCommand("digest");
    hide PlainWord;
    PlainNonEmpty(a);
    PlainNonEmpty(b);
    PlainNonEmpty(f);
    var ws := [a, b, f, p, l];
    NonEmptyPlain([a, b, f]);
    assert ws[..4] == [a, b, f, p] && [a, b, f, p][..3] == [a, b, f];
    assert NonEmpty(ws[..4]) == [a, b, f] + if p == "" then [] else [p];
  }

  // ---------------------------------------------------------------- commands, host, programs

  /** Names that are words in upper case. */
  ghost predicate GoodCommands(commands: seq<Command>)
  {
    forall i :: 0 <= i < |commands| ==> PlainWord(commands[i].name) && Upcase(commands[i].name) == commands[i].name
  }

  /** A name that does not start the name of another command. */
  predicate Alone(commands: seq<Command>, i: nat)
    requires i < |commands|
  {
    forall j :: 0 <= j < |commands| && j != i ==> !StartsWith(commands[j].name, commands[i].name)
  }

  lemma {:induction false} OneMeant(commands: seq<Command>, name: string, i: nat)
    requires i < |commands| && StartsWith(commands[i].name, name)
    requires forall j :: 0 <= j < |commands| && StartsWith(commands[j].name, name) ==> j == i
    ensures Meant(commands, name) == [commands[i]]
  {
    hide StartsWith;
    if i == 0 {
      NoneMeant(commands[1..], name);
    } else {
      assert !StartsWith(commands[0].name, name);
      OneMeant(commands[1..], name, i - 1);
    }
  }

  lemma {:induction false} NoneMeant(commands: seq<Command>, name: string)
    requires forall j :: 0 <= j < |commands| ==> !StartsWith(commands[j].name, name)
    ensures Meant(commands, name) == []
  {
    hide StartsWith;
    if commands != [] {
      NoneMeant(commands[1..], name);
    }
  }

  lemma {:induction false} SomeMeant(commands: seq<Command>, name: string, i: nat)
    requires i < |commands| && StartsWith(commands[i].name, name)
    ensures Meant(commands, name) != []
  {
    hide StartsWith;
    if i > 0 {
      SomeMeant(commands[1..], name, i - 1);
    }
  }

  lemma {:induction false} TwoMeant(commands: seq<Command>, name: string, i: nat, j: nat)
    requires i < j < |commands| && StartsWith(commands[i].name, name) && StartsWith(commands[j].name, name)
    ensures |Meant(commands, name)| > 1
  {
    hide StartsWith;
    if i > 0 {
      TwoMeant(commands[1..], name, i - 1, j - 1);
    } else {
      SomeMeant(commands[1..], name, j - 1);
    }
  }

  /** A command that is printed is read back exactly when its name does not start
      another one; else the file is refused. */
  lemma ReadDisable(env: Env, alias: string, c: Conf, i: nat)
    requires GoodAlias(alias) && GoodCommands(env.commands) && i < |env.commands| && env.commands[i].bit.Some?
    ensures Directive(env, alias, c, Spaced(["disable", alias, env.commands[i].name])) ==
            if Alone(env.commands, i) then Done(c.(disabled := c.disabled + {env.commands[i].bit.value})) else Fatal
  {
    hide WordsIn, NumbersIn, PlainWord, Upcase, Locase, NoList, Directive, Spaced, Meant, StartsWith;
    var name := env.commands[i].name;
    PlainCommand("disable");
    NonEmptyPlain([name]);
    WordLine(env, alias, c, "disable", [name]);
    assert ["disable", alias] + [name] == ["disable", alias, name];
    StartsItself(name);
    if Alone(env.commands, i) {
      OneMeant(env.commands, name, i);
    } else {
      var j :| 0 <= j < |env.commands| && j != i && StartsWith(env.commands[j].name, name);
      TwoMeant(env.commands, name, if i < j then i else j, if i < j then j else i);
    }
  }

  lemma StartsItself(name: string)
    ensures StartsWith(name, name)
  {
    assert name[..|name|] == name;
  }

  lemma ReadRestrict(env: Env, alias: string, c: Conf, name: string)
    requires GoodAlias(alias) && PlainWord(name)
    ensures Directive(env, alias, c, Spaced(["restrict", alias, name])) == Done(c)
  {
    hide WordsIn, NumbersIn, PlainWord, Upcase, Locase, NoList, Directive, Spaced;
    PlainCommand("restrict");
    NonEmptyPlain([name]);
    WordLine(env, alias, c, "restrict", [name]);
    assert ["restrict", alias] + [name] == ["restrict", alias, name];
  }

  predicate MtaOk(c: Conf) { c.mtaHost == "" || (PlainWord(c.mtaHost) && !FirstIs(c.mtaHost, '-')) }

  lemma ReadMta(env: Env, alias: string, was: Conf, c: Conf)
    requires GoodAlias(alias) && MtaOk(c) && was.mtaPort == 0
    ensures Directive(env, alias, was, MtaLine(alias, c)) == Done(was.(mtaHost := c.mtaHost, mtaPort := c.mtaPort))
  {
    hide WordsIn, NumbersIn, PlainWord, Upcase, Locase, NoList, Directive, Spaced, DecInt, NonEmpty, Printed;
    var host := if c.mtaHost != "" then c.mtaHost else "-";
    var ns := if c.mtaPort != 0 then [c.mtaPort] else [];
    PlainCommand("mta_host2");
    PlainCommand("-");
    PrintedOne(c.mtaPort);
    PrintedNone();
    NumbersPrinted(ns);
    var ws := [host] + Printed(ns);
    HostWords(host, Printed(ns));
    WordLine(env, alias, was, "mta_host2", ws);
    assert ["mta_host2", alias] + ws == ["mta_host2", alias, host] + Printed(ns);
    assert ([alias] + ws)[2..] == Printed(ns);
    PlainNonEmpty(host);
  }

  lemma PrintedNone()
    ensures Printed([]) == [] && NumbersIn([]) == []
  {
  }

  lemma HostWords(host: string, ws: seq<string>)
    requires PlainWord(host) && PlainWords(ws)
    ensures Words0([host] + ws) && NonEmpty([host] + ws) == [host] + ws
  {
    hide PlainWord;
    NonEmptyPlain([host] + ws);
  }

  /** A program that is written so that it can be read: an absolute path that is
      inside the directory of the installation, or does not start with its name. */
  predicate PathOk(dir: string, path: string)
  {
    FirstIs(path, '/') && (StartsWith(path, dir) ==>
      |path| > |dir| + 1 && path[|dir|] == '/' && path[|dir| + 1] != '/')
  }

  ghost predicate ProgramOk(env: Env, p: Program)
  {
    p.Run? ==> p.words != [] && PlainWords(p.words) && PathOk(env.dir, p.words[0]) && env.executable(p.words[0])
  }

  lemma PathBack(dir: string, path: string)
    requires PathOk(dir, path) && PlainWord(path)
    ensures var s := Shortened(dir, path);
            PlainWord(s) && (if !FirstIs(s, '/') then dir + "/" + s else s) == path
  {
    if StartsWith(path, dir) {
      var s := path[|dir| + 1..];
      assert path == path[..|dir|] + [path[|dir|]] + s;
      assert forall i :: 0 <= i < |s| ==> s[i] == path[|dir| + 1 + i];
    }
  }

  /** What follows the option. */
  lemma ProgramWords(env: Env, alias: string, opt: string, ws: seq<string>)
    requires PlainWord(alias) && PlainWord(opt) && PlainWords(ws)
    ensures var args := Spaced([alias, opt] + ws); var rest := RestAfter(args);
            && WordOf(rest) == opt && WordsIn(RestAfter(rest)) == ws
            && WordsIn(args) == [alias, opt] + ws
  {
    hide WordsIn, NonEmpty, PlainWord, RestAfter, WordOf, Spaced;
    var t := if ws == [] then "" else [BLANK] + Spaced(ws);
    var args := Spaced([alias, opt] + ws);
    assert [alias, opt] + ws == [alias] + ([opt] + ws);
    SpacedHead(alias, [opt] + ws);
    OptionText(opt, ws);
    assert args == alias + ([BLANK] + (opt + t));
    FirstField(alias, [BLANK] + (opt + t));
    OptionRead(opt, t);
    NonEmptyPlain(ws);
    WordsSpaced(ws);
    NoneIn();
    if ws != [] {
      BlankBefore(Spaced(ws));
    }
    NonEmptyPlain([alias, opt] + ws);
    WordsSpaced([alias, opt] + ws);
  }

  lemma OptionText(opt: string, ws: seq<string>)
    ensures Spaced([opt] + ws) == opt + if ws == [] then "" else [BLANK] + Spaced(ws)
  {
    if ws == [] {
      assert [opt] + ws == [opt];
    } else {
      SpacedHead(opt, ws);
    }
  }

  lemma OptionRead(opt: string, t: string)
    requires PlainWord(opt) && (t == "" || t[0] == BLANK)
    ensures WordOf([BLANK] + (opt + t)) == opt && RestAfter([BLANK] + (opt + t)) == t
  {
    hide WordLength;
    var s := opt + t;
    assert s[0] == opt[0];
    TableLines.SkipBlank(s);
    WordLengthIs(opt, t);
    assert s[..|opt|] == opt && s[|opt|..] == t;
  }

  lemma BlankBefore(s: string)
    ensures WordsIn([BLANK] + s) == WordsIn(s)
  {
    assert ([BLANK] + s)[1..] == s;
    assert NextWord([BLANK] + s) == NextWord(s);
  }

  lemma ProgramIsRead(env: Env, was: Program, alias: string, p: Program, strict: bool)
    requires GoodAlias(alias) && ProgramOk(env, p)
    ensures var opt := if p.Off? then "off" else if p.Default? then "default" else "program";
            var ws := if p.Run? then [Shortened(env.dir, p.words[0])] + p.words[1..] else [];
            && PlainWord(opt) && PlainWords(ws)
            && ProgramOption(env, was, Spaced([alias, opt] + ws), strict) == Some(p)
  {
    hide WordsIn, PlainWord, RestAfter, WordOf, Spaced, Shortened, PathOk, Locase;
    var opt := if p.Off? then "off" else if p.Default? then "default" else "program";
    var ws := if p.Run? then [Shortened(env.dir, p.words[0])] + p.words[1..] else [];
    PlainCommand(opt);
    LowerOptions();
    if p.Run? {
      PathBack(env.dir, p.words[0]);
    }
    ProgramWords(env, alias, opt, ws);
    if p.Run? {
      assert [p.words[0]] + ws[1..] == p.words;
    }
  }

  lemma UnknownOption(env: Env, was: Program, alias: string, w: string, strict: bool)
    requires PlainWord(alias) && PlainWord(w) && Locase(w) !in {"off", "default", "program"}
    ensures ProgramOption(env, was, Spaced([alias, w]), strict) == if strict then None else Some(was)
  {
    hide WordsIn, PlainWord, Locase, Spaced, RestAfter, WordOf;
    ProgramWords(env, alias, w, []);
    assert [alias, w] + [] == [alias, w];
    PlainNonEmpty(w);
    NotEmptyLocase(w);
  }

  /** An unknown word is ignored for the filter, */
  lemma UnknownFilter(env: Env, alias: string, c: Conf, w: string)
    requires GoodAlias(alias) && PlainWord(w) && Locase(w) !in {"off", "default", "program"}
    ensures Directive(env, alias, c, Spaced(["filter_prog", alias, w])) == Done(c)
  {
    hide WordsIn, NumbersIn, PlainWord, Upcase, Locase, NoList, Directive, Spaced, ProgramOption;
    PlainCommand("filter_prog");
    UnknownOption(env, c.filter, alias, w, false);
    NonEmptyPlain([w]);
    WordLine(env, alias, c, "filter_prog", [w]);
    assert [alias] + [w] == [alias, w];
    assert ["filter_prog", alias] + [w] == ["filter_prog", alias, w];
  }

  /** and an error for the archive. */
  lemma UnknownArchive(env: Env, alias: string, c: Conf, w: string)
    requires GoodAlias(alias) && PlainWord(w) && Locase(w) !in {"off", "default", "program"}
    ensures Directive(env, alias, c, Spaced(["web_archive", alias, w])) == Fatal
  {
    hide WordsIn, NumbersIn, PlainWord, Upcase, Locase, NoList, Directive, Spaced, ProgramOption;
    PlainCommand("web_archive");
    UnknownOption(env, c.web, alias, w, true);
    NonEmptyPlain([w]);
    WordLine(env, alias, c, "web_archive", [w]);
    assert [alias] + [w] == [alias, w];
    assert ["web_archive", alias] + [w] == ["web_archive", alias, w];
  }

  lemma NotEmptyLocase(w: string)
    requires w != ""
    ensures Locase(w) != ""
  {
  }

  lemma LowerOptions()
    ensures Locase("off") == "off" && Locase("default") == "default" && Locase("program") == "program"
  {
  }

  /** The words of a program line. */
  function ProgramArgs(p: Program, dir: string): seq<string>
  {
    match p
    case Off => ["off"]
    case Default => ["default"]
    case Run(ws) => ["program"] + if ws == [] then [] else [Shortened(dir, ws[0])] + ws[1..]
  }

  lemma ProgramLineActs(env: Env, alias: string, c: Conf, cmd: string, p: Program, strict: bool)
    requires GoodAlias(alias) && ProgramOk(env, p) && PlainWord(cmd)
    ensures var args := Spaced([alias] + ProgramArgs(p, env.dir));
            && Directive(env, alias, c, ProgramLine(cmd, alias, p, env.dir)) == Act(env, alias, c, cmd, args)
            && WordsIn(args) != [] && WordsIn(args)[0] == alias
            && ProgramOption(env, if strict then c.web else c.filter, args, strict) == Some(p)
  {
    hide WordsIn, PlainWord, Upcase, Locase, NoList, Directive, Spaced, ProgramOption, ProgramArgs, ProgramOk,
         ProgramLine, Act;
    var ws := ProgramArgs(p, env.dir);
    ProgramArgsRead(env, if strict then c.web else c.filter, alias, p, strict);
    NonEmptyPlain(ws);
    WordLine(env, alias, c, cmd, ws);
    ProgramLineIs(cmd, alias, p, env.dir);
  }

  lemma ProgramArgsRead(env: Env, was: Program, alias: string, p: Program, strict: bool)
    requires GoodAlias(alias) && ProgramOk(env, p)
    ensures PlainWords(ProgramArgs(p, env.dir))
    ensures ProgramOption(env, was, Spaced([alias] + ProgramArgs(p, env.dir)), strict) == Some(p)
  {
    hide PlainWord, Spaced, ProgramOption, Shortened, PathOk, GoodAlias, ProgramArgs, PlainWords;
    var opt := if p.Off? then "off" else if p.Default? then "default" else "program";
    var ws := if p.Run? then [Shortened(env.dir, p.words[0])] + p.words[1..] else [];
    ProgramIsRead(env, was, alias, p, strict);
    ArgsAre(p, env.dir);
    PlainCons(opt, ws);
    assert [alias] + ([opt] + ws) == [alias, opt] + ws;
  }

  lemma ArgsAre(p: Program, dir: string)
    requires p.Run? ==> p.words != []
    ensures var opt := if p.Off? then "off" else if p.Default? then "default" else "program";
            var ws := if p.Run? then [Shortened(dir, p.words[0])] + p.words[1..] else [];
            ProgramArgs(p, dir) == [opt] + ws
  {
    hide Shortened;
  }

  lemma PlainCons(w: string, ws: seq<string>)
    requires PlainWord(w) && PlainWords(ws)
    ensures PlainWords([w] + ws)
  {
    hide PlainWord;
  }

  lemma ProgramLineIs(cmd: string, alias: string, p: Program, dir: string)
    ensures ProgramLine(cmd, alias, p, dir) == Spaced([cmd, alias] + ProgramArgs(p, dir))
  {
    hide Spaced, Shortened;
    match p
    case Off => assert [cmd, alias] + ["off"] == [cmd, alias, "off"];
    case Default => assert [cmd, alias] + ["default"] == [cmd, alias, "default"];
    case Run(ws) =>
      var t := if ws == [] then [] else [Shortened(dir, ws[0])] + ws[1..];
      assert [cmd, alias] + (["program"] + t) == [cmd, alias, "program"] + t;
  }

  lemma ReadFilter(env: Env, alias: string, c: Conf, p: Program)
    requires GoodAlias(alias) && ProgramOk(env, p)
    ensures Directive(env, alias, c, ProgramLine("filter_prog", alias, p, env.dir)) == Done(c.(filter := p))
  {
    hide WordsIn, NumbersIn, PlainWord, Upcase, Locase, NoList, Directive, Spaced, ProgramOption, ProgramLine,
         ProgramOk;
    PlainCommand("filter_prog");
    ProgramLineActs(env, alias, c, "filter_prog", p, false);
  }

  lemma ReadWeb(env: Env, alias: string, c: Conf, p: Program)
    requires GoodAlias(alias) && ProgramOk(env, p)
    ensures Directive(env, alias, c, ProgramLine("web_archive", alias, p, env.dir)) == Done(c.(web := p))
  {
    hide WordsIn, NumbersIn, PlainWord, Upcase, Locase, NoList, Directive, Spaced, ProgramOption, ProgramLine,
         ProgramOk;
    PlainCommand("web_archive");
    ProgramLineActs(env, alias, c, "web_archive", p, true);
  }
}
