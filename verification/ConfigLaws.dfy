/** A list's configuration is read back as it was written. */
module ConfigLaws {
  import opened Text
  import opened AddressText
  import opened Numbers
  import opened DeliveryAddresses
  import opened ListConfig
  import opened ConfigLines

  // ---------------------------------------------------------------- the loop

  lemma {:induction false} ReadAppend(env: Env, alias: string, r: Reader, a: seq<string>, b: seq<string>)
    ensures ReadOn(env, alias, r, a + b) == ReadOn(env, alias, ReadOn(env, alias, r, a), b)
    decreases |b|
  {
    hide Next;
    if b == [] {
      assert a + b == a;
    } else {
      var n := |b| - 1;
      assert (a + b)[..|a| + n] == a + b[..n] && (a + b)[|a| + n] == b[n];
      ReadAppend(env, alias, r, a, b[..n]);
    }
  }

  lemma ReadOne(env: Env, alias: string, r: Reader, l: string)
    ensures ReadOn(env, alias, r, [l]) == Next(env, alias, r, l)
  {
    hide Next;
    assert [l][..0] == [];
    assert ReadOn(env, alias, r, []) == r;
  }

  /** A line of its own: not continued on the next, and no comment. */
  predicate Whole(l: string) { !Continues(l) && !FirstIs(l, '#') }

  lemma ReadWhole(env: Env, alias: string, c: Conf, l: string)
    requires Whole(l)
    ensures ReadOn(env, alias, Reading(c, "", false), [l]) == AfterResult(Directive(env, alias, c, l))
  {
    hide Directive;
    ReadOne(env, alias, Reading(c, "", false), l);
    assert "" + l == l;
  }

  // ---------------------------------------------------------------- continued lines and comments

  function Joint(ps: seq<string>): string
  {
    if ps == [] then "" else Joint(ps[..|ps| - 1]) + ps[|ps| - 1]
  }

  /** The pieces, each with the mark that its line goes on. */
  function Folded(ps: seq<string>): (ls: seq<string>)
    ensures |ls| == |ps| && forall i :: 0 <= i < |ps| ==> ls[i] == ps[i] + "&"
  {
    seq(|ps|, i requires 0 <= i < |ps| => ps[i] + "&")
  }

  ghost predicate Pieces(ps: seq<string>) { forall i :: 0 <= i < |ps| ==> ps[i] != "" && ps[i][0] != '#' }

  lemma {:induction false} PiecesJoin(env: Env, alias: string, c: Conf, carry: string, ps: seq<string>)
    requires Pieces(ps)
    ensures ReadOn(env, alias, Reading(c, carry, false), Folded(ps)) == Reading(c, carry + Joint(ps), false)
  {
    hide Directive, Next;
    if ps == [] {
      assert carry + "" == carry;
    } else {
      var n := |ps| - 1;
      PiecesJoin(env, alias, c, carry, ps[..n]);
      assert Folded(ps)[..n] == Folded(ps[..n]);
      PieceGoesOn(env, alias, c, carry + Joint(ps[..n]), ps[n]);
      ConcatMore3(carry, Joint(ps[..n]), ps[n]);
    }
  }

  lemma PieceGoesOn(env: Env, alias: string, c: Conf, carry: string, p: string)
    requires p != "" && p[0] != '#'
    ensures Next(env, alias, Reading(c, carry, false), p + "&") == Reading(c, carry + p, false)
  {
    hide Directive;
    var l := p + "&";
    assert l[..|l| - 1] == p && l[0] == p[0];
  }

  lemma ConcatMore3(a: string, b: string, c: string)
    ensures (a + b) + c == a + (b + c)
  {
  }

  /** A directive on several lines is read as if it were on one: the pieces are put
      together in their order. */
  lemma ContinuedIsOne(env: Env, alias: string, c: Conf, ps: seq<string>, last: string)
    requires Pieces(ps) && Whole(last)
    ensures var line := Joint(ps) + last;
            && ReadOn(env, alias, Reading(c, "", false), Folded(ps) + [last]) ==
               AfterResult(Directive(env, alias, c, line))
            && (Whole(line) ==> ReadOn(env, alias, Reading(c, "", false), Folded(ps) + [last]) ==
                                ReadOn(env, alias, Reading(c, "", false), [line]))
  {
    hide Directive, Joint, ReadOn;
    var line := Joint(ps) + last;
    PiecesJoin(env, alias, c, "", ps);
    assert "" + Joint(ps) == Joint(ps);
    ReadAppend(env, alias, Reading(c, "", false), Folded(ps), [last]);
    ReadOne(env, alias, Reading(c, Joint(ps), false), last);
    if Whole(line) {
      ReadWhole(env, alias, c, line);
    }
  }

  /** So is one that the file ends in, or that a comment cuts off. */
  lemma CutOffIsOne(env: Env, alias: string, c: Conf, ps: seq<string>, comment: string)
    requires Pieces(ps) && comment != "" && comment[0] == '#'
    ensures var r := AfterResult(Directive(env, alias, c, Joint(ps)));
            && ReadAll(env, alias, Reading(c, "", false), Folded(ps)) == r
            && ReadOn(env, alias, Reading(c, "", false), Folded(ps) + [comment]) == r
  {
    hide Directive, Joint, ReadOn;
    PiecesJoin(env, alias, c, "", ps);
    assert "" + Joint(ps) == Joint(ps);
    ReadAppend(env, alias, Reading(c, "", false), Folded(ps), [comment]);
    ReadOne(env, alias, Reading(c, Joint(ps), false), comment);
  }

  lemma EmptyDirective(env: Env, alias: string, c: Conf)
    ensures Directive(env, alias, c, "") == Done(c)
  {
    assert WordOf("") == "";
  }

  /** A comment between two directives changes nothing. */
  lemma CommentChangesNothing(env: Env, alias: string, r: Reader, a: seq<string>, comment: string, b: seq<string>)
    requires comment != "" && comment[0] == '#'
    requires var m := ReadOn(env, alias, r, a); m.Reading? ==> m.carry == "" && !m.block
    ensures ReadOn(env, alias, r, a + [comment] + b) == ReadOn(env, alias, r, a + b)
  {
    hide Directive, ReadOn;
    var m := ReadOn(env, alias, r, a);
    ReadAppend(env, alias, r, a, [comment]);
    ReadAppend(env, alias, r, a + [comment], b);
    ReadAppend(env, alias, r, a, b);
    ReadOne(env, alias, m, comment);
    if m.Reading? {
      EmptyDirective(env, alias, m.conf);
    }
  }

  // ---------------------------------------------------------------- addresses

  ghost predicate AddressesOk(text: string)
  {
    Joined(Addresses(text)) == text && forall i :: 0 <= i < |Addresses(text)| ==> ReadsBack(Addresses(text)[i])
  }

  ghost predicate WholeLines(ls: seq<string>) { forall i :: 0 <= i < |ls| ==> Whole(ls[i]) }

  lemma {:induction false} ReadModerators(env: Env, alias: string, c: Conf, xs: seq<string>)
    requires GoodAlias(alias) && (forall i :: 0 <= i < |xs| ==> ReadsBack(xs[i]))
    requires WholeLines(LinesFor("moderator", alias, xs)) && With(c.mask0, LIST_MODERATED) == c.mask0
    ensures ReadOn(env, alias, Reading(c, "", false), LinesFor("moderator", alias, xs)) ==
            Reading(c.(moderators := c.moderators + Joined(xs)), "", false)
    decreases |xs|
  {
    hide Directive, Spaced, ReadsBack, GoodAlias, With, Whole;
    if xs == [] {
      assert c.moderators + "" == c.moderators;
    } else {
      var l, rest := Spaced(["moderator", alias, xs[0]]), LinesFor("moderator", alias, xs[1..]);
      var next := c.(moderators := c.moderators + xs[0] + [BLANK]);
      assert LinesFor("moderator", alias, xs) == [l] + rest;
      assert Whole(LinesFor("moderator", alias, xs)[0]);
      TailWhole(l, rest);
      ReadAppend(env, alias, Reading(c, "", false), [l], rest);
      ReadWhole(env, alias, c, l);
      ReadModerator(env, alias, c, xs[0]);
      ReadModerators(env, alias, next, xs[1..]);
      ConcatMore(c.moderators, xs[0], Joined(xs[1..]));
    }
  }

  lemma TailWhole(l: string, rest: seq<string>)
    requires WholeLines([l] + rest)
    ensures WholeLines(rest) && Whole(l)
  {
    hide Whole;
    assert ([l] + rest)[0] == l;
    forall i | 0 <= i < |rest| ensures Whole(rest[i]) {
      assert ([l] + rest)[i + 1] == rest[i];
    }
  }

  lemma ConcatMore(a: string, x: string, b: string)
    ensures a + x + [BLANK] + b == a + (x + [BLANK] + b)
  {
  }

  lemma {:induction false} ReadManagers(env: Env, alias: string, c: Conf, xs: seq<string>)
    requires GoodAlias(alias) && (forall i :: 0 <= i < |xs| ==> ReadsBack(xs[i]))
    requires WholeLines(LinesFor("subscription_manager", alias, xs))
    ensures ReadOn(env, alias, Reading(c, "", false), LinesFor("subscription_manager", alias, xs)) ==
            Reading(c.(managers := c.managers + Joined(xs)), "", false)
    decreases |xs|
  {
    hide Directive, Spaced, ReadsBack, GoodAlias, Whole;
    if xs == [] {
      assert c.managers + "" == c.managers;
    } else {
      var l, rest := Spaced(["subscription_manager", alias, xs[0]]), LinesFor("subscription_manager", alias, xs[1..]);
      var next := c.(managers := c.managers + xs[0] + [BLANK]);
      assert LinesFor("subscription_manager", alias, xs) == [l] + rest;
      TailWhole(l, rest);
      ReadAppend(env, alias, Reading(c, "", false), [l], rest);
      ReadWhole(env, alias, c, l);
      ReadManager(env, alias, c, xs[0]);
      ReadManagers(env, alias, next, xs[1..]);
      ConcatMore(c.managers, xs[0], Joined(xs[1..]));
    }
  }

  lemma {:induction false} ReadErrors(env: Env, alias: string, c: Conf, xs: seq<string>)
    requires GoodAlias(alias) && (forall i :: 0 <= i < |xs| ==> ReadsBack(xs[i]))
    requires WholeLines(LinesFor("errors-to", alias, xs))
    ensures ReadOn(env, alias, Reading(c, "", false), LinesFor("errors-to", alias, xs)) ==
            Reading(c.(errorsTo := c.errorsTo + Joined(xs)), "", false)
    decreases |xs|
  {
    hide Directive, Spaced, ReadsBack, GoodAlias, Whole;
    if xs == [] {
      assert c.errorsTo + "" == c.errorsTo;
    } else {
      var l, rest := Spaced(["errors-to", alias, xs[0]]), LinesFor("errors-to", alias, xs[1..]);
      var next := c.(errorsTo := c.errorsTo + xs[0] + [BLANK]);
      assert LinesFor("errors-to", alias, xs) == [l] + rest;
      TailWhole(l, rest);
      ReadAppend(env, alias, Reading(c, "", false), [l], rest);
      ReadWhole(env, alias, c, l);
      ReadErrorsTo(env, alias, c, xs[0]);
      ReadErrors(env, alias, next, xs[1..]);
      ConcatMore(c.errorsTo, xs[0], Joined(xs[1..]));
    }
  }

  // ---------------------------------------------------------------- commands

  function BitsIn(commands: seq<Command>, bits: set<nat>): set<nat>
  {
    if commands == [] then {}
    else BitsIn(commands[1..], bits) + if Masked(commands[0], bits) then {commands[0].bit.value} else {}
  }

  /** No command to be printed, from number i on, has a name that starts another one. */
  predicate Distinct(commands: seq<Command>, bits: set<nat>, i: nat)
  {
    forall k :: i <= k < |commands| && Masked(commands[k], bits) ==> Alone(commands, k)
  }

  lemma {:induction false} ReadDisabled(env: Env, alias: string, c: Conf, i: nat, bits: set<nat>)
    requires GoodAlias(alias) && GoodCommands(env.commands) && i <= |env.commands|
    requires WholeLines(CommandLines("disable", alias, env.commands[i..], bits))
    ensures ReadOn(env, alias, Reading(c, "", false), CommandLines("disable", alias, env.commands[i..], bits)) ==
            if Distinct(env.commands, bits, i)
            then Reading(c.(disabled := c.disabled + BitsIn(env.commands[i..], bits)), "", false) else Stopped
    decreases |env.commands| - i
  {
    hide Directive, Spaced, GoodAlias, GoodCommands, Whole, Alone;
    if i < |env.commands| {
      var cs := env.commands[i..];
      var rest := CommandLines("disable", alias, env.commands[i + 1..], bits);
      assert cs[0] == env.commands[i] && cs[1..] == env.commands[i + 1..];
      var l := Spaced(["disable", alias, cs[0].name]);
      if Masked(cs[0], bits) {
        assert CommandLines("disable", alias, cs, bits) == [l] + rest;
        TailWhole(l, rest);
        ReadAppend(env, alias, Reading(c, "", false), [l], rest);
        ReadWhole(env, alias, c, l);
        ReadDisable(env, alias, c, i);
        if Alone(env.commands, i) {
          ReadDisabled(env, alias, c.(disabled := c.disabled + {cs[0].bit.value}), i + 1, bits);
          assert c.disabled + {cs[0].bit.value} + BitsIn(cs[1..], bits) == c.disabled + BitsIn(cs, bits);
        } else {
          Refused(env, alias, rest);
        }
      } else {
        assert CommandLines("disable", alias, cs, bits) == rest;
        ReadDisabled(env, alias, c, i + 1, bits);
        assert BitsIn(cs, bits) == BitsIn(cs[1..], bits);
      }
    }
  }

  /** A reader that has stopped reads nothing more. */
  lemma Refused(env: Env, alias: string, ls: seq<string>)
    ensures ReadOn(env, alias, Stopped, ls) == Stopped
  {
    StaysStopped(env, alias, Stopped, ls, 0);
    assert ls[..0] == [];
  }

  lemma {:induction false} ReadRestricted(env: Env, alias: string, c: Conf, cs: seq<Command>, bits: set<nat>)
    requires GoodAlias(alias) && (forall i :: 0 <= i < |cs| ==> PlainWord(cs[i].name))
    requires WholeLines(CommandLines("restrict", alias, cs, bits))
    ensures ReadOn(env, alias, Reading(c, "", false), CommandLines("restrict", alias, cs, bits)) ==
            Reading(c, "", false)
  {
    hide Directive, Spaced, GoodAlias, PlainWord, Whole;
    if cs != [] {
      var rest := CommandLines("restrict", alias, cs[1..], bits);
      var l := Spaced(["restrict", alias, cs[0].name]);
      if Masked(cs[0], bits) {
        TailWhole(l, rest);
        ReadAppend(env, alias, Reading(c, "", false), [l], rest);
        ReadWhole(env, alias, c, l);
        ReadRestrict(env, alias, c, cs[0].name);
      } else {
        assert CommandLines("restrict", alias, cs, bits) == rest;
      }
      ReadRestricted(env, alias, c, cs[1..], bits);
    }
  }

  lemma {:induction false} AllBitsIn(commands: seq<Command>, bits: set<nat>)
    requires forall b :: b in bits ==> exists i :: 0 <= i < |commands| && commands[i].bit == Some(b)
    ensures BitsIn(commands, bits) == bits
  {
    BitsInOnly(commands, bits);
    forall b | b in bits ensures b in BitsIn(commands, bits) {
      var i :| 0 <= i < |commands| && commands[i].bit == Some(b);
      BitIn(commands, bits, i);
    }
  }

  lemma {:induction false} BitsInOnly(commands: seq<Command>, bits: set<nat>)
    ensures BitsIn(commands, bits) <= bits
  {
    if commands != [] {
      BitsInOnly(commands[1..], bits);
    }
  }

  lemma {:induction false} BitIn(commands: seq<Command>, bits: set<nat>, i: nat)
    requires i < |commands| && Masked(commands[i], bits)
    ensures commands[i].bit.value in BitsIn(commands, bits)
  {
    if i > 0 {
      BitIn(commands[1..], bits, i - 1);
    }
  }

  // ---------------------------------------------------------------- the default block

  /** A value that is read back: one word, or for the preferences words with a
      blank behind each, in upper case but for a password. */
  ghost predicate ValueOk(env: Env, i: nat, v: string)
  {
    var ws := WordsIn(v);
    && (forall j :: 0 <= j < |ws| ==> env.valid(i, Upcase(ws[j])) && !FirstIs(ws[j], '#'))
    && (if i == SET_PREFERENCE then v == Joined(ws) && forall j :: 0 <= j < |ws| ==> Upcase(ws[j]) == ws[j]
        else ws == [v] && (i == SET_PASSWORD || Upcase(v) == v))
  }

  lemma {:induction false} PreferencesBack(env: Env, was: string, ws: seq<string>)
    requires forall j :: 0 <= j < |ws| ==>
               env.valid(SET_PREFERENCE, Upcase(ws[j])) && !FirstIs(ws[j], '#') && Upcase(ws[j]) == ws[j]
    ensures ValuesRead(env, SET_PREFERENCE, was, ws) == Some(was + Joined(ws))
    decreases |ws|
  {
    hide Upcase;
    if ws == [] {
      assert was + "" == was;
    } else {
      PreferencesBack(env, was + ws[0] + [BLANK], ws[1..]);
      ConcatMore(was, ws[0], Joined(ws[1..]));
    }
  }

  lemma ValueBack(env: Env, i: nat, v: string)
    requires ValueOk(env, i, v)
    ensures ValuesRead(env, i, "", WordsIn(v)) == Some(v)
  {
    hide WordsIn, Upcase, Joined;
    var ws := WordsIn(v);
    if i == SET_PREFERENCE {
      PreferencesBack(env, "", ws);
      assert "" + Joined(ws) == Joined(ws);
    } else {
      OneValue(env, i, v);
    }
  }

  lemma OneValue(env: Env, i: nat, v: string)
    requires i != SET_PREFERENCE && env.valid(i, Upcase(v)) && !FirstIs(v, '#') && (i == SET_PASSWORD || Upcase(v) == v)
    ensures ValuesRead(env, i, "", [v]) == Some(v)
  {
    hide Upcase;
    assert [v][1..] == [];
    assert ValuesRead(env, i, v, []) == Some(v);
  }

  lemma OptionNames(i: nat)
    requires i < |OPTIONS|
    ensures PlainWord(OPTIONS[i]) && Upcase(OPTIONS[i]) == OPTIONS[i] && OPTIONS[i] != "}" && OPTIONS[i][0] != '#'
    ensures OptionNumber(OPTIONS[i], 0) == i
  {
  }

  /** What is read of the line of an option. */
  lemma OptionLine(i: nat, v: string)
    requires i < |OPTIONS|
    ensures var l := DefaultLine(i, v);
            WordOf(l) == OPTIONS[i] && WordsIn(RestAfter(RestAfter(l))) == WordsIn(v)
  {
    hide WordsIn, OPTIONS, RestAfter, WordOf;
    OptionNames(i);
    var o, t := OPTIONS[i], [BLANK] + v;
    var l := DefaultLine(i, v);
    assert l == [BLANK] + ([BLANK] + (o + ([BLANK] + ("=" + t))));
    TwoBlanks(o, [BLANK] + ("=" + t));
    EqualsSign(t);
    BlankBefore(v);
  }

  lemma TwoBlanks(o: string, x: string)
    requires PlainWord(o) && x != "" && x[0] == BLANK
    ensures var l := [BLANK] + ([BLANK] + (o + x)); WordOf(l) == o && RestAfter(l) == x
  {
    hide WordLength;
    FirstField(o, x);
    var s := o + x;
    assert s[0] == o[0];
    FieldBehindBlank(s);
    var u := [BLANK] + s;
    assert ([BLANK] + u)[1..] == u;
    assert SkipSpaces([BLANK] + u) == SkipSpaces(u);
  }

  lemma EqualsSign(t: string)
    requires t != "" && t[0] == BLANK
    ensures RestAfter([BLANK] + ("=" + t)) == t
  {
    hide WordLength;
    FirstField("=", t);
    FieldBehindBlank("=" + t);
  }

  lemma ReadOption(env: Env, c: Conf, i: nat, v: string)
    requires i < |OPTIONS| == |c.defaults| && c.defaults[i] == "" && ValueOk(env, i, v) &&
             With(c.mask0, LIST_DEFAULT) == c.mask0
    ensures BlockLine(env, c, DefaultLine(i, v)) == Opened(c.(defaults := c.defaults[i := v]))
  {
    hide WordsIn, RestAfter, WordOf, ValueOk, ValuesRead, DefaultLine, OptionNumber, Upcase, With;
    OptionNames(i);
    OptionLine(i, v);
    ValueBack(env, i, v);
  }

  lemma {:induction false} ReadBlock(env: Env, alias: string, c: Conf, defaults: seq<string>, i: nat)
    requires i <= |OPTIONS| == |defaults| == |c.defaults|
    requires c.defaults[..i] == defaults[..i] && forall j :: i <= j < |OPTIONS| ==> c.defaults[j] == ""
    requires forall j :: 0 <= j < |OPTIONS| && defaults[j] != "" ==> ValueOk(env, j, defaults[j])
    requires With(c.mask0, LIST_DEFAULT) == c.mask0
    ensures ReadOn(env, alias, Reading(c, "", true), DefaultLines(defaults, i)) ==
            Reading(c.(defaults := defaults), "", true)
    decreases |OPTIONS| - i
  {
    hide BlockLine, DefaultLine, ValueOk, With, DefaultLines;
    if i == |OPTIONS| {
      DefaultEnd(defaults);
      assert c.defaults == c.defaults[..i] && defaults == defaults[..i];
    } else {
      DefaultStep(defaults, i);
      var rest := DefaultLines(defaults, i + 1);
      if defaults[i] == "" {
        assert [] + rest == rest;
        assert c.defaults[..i + 1] == defaults[..i] + [c.defaults[i]];
        assert defaults[..i + 1] == defaults[..i] + [defaults[i]];
        ReadBlock(env, alias, c, defaults, i + 1);
      } else {
        var l := DefaultLine(i, defaults[i]);
        var next := c.(defaults := c.defaults[i := defaults[i]]);
        ReadAppend(env, alias, Reading(c, "", true), [l], rest);
        ReadOne(env, alias, Reading(c, "", true), l);
        ReadOption(env, c, i, defaults[i]);
        assert next.defaults[..i + 1] == defaults[..i] + [defaults[i]];
        assert defaults[..i + 1] == defaults[..i] + [defaults[i]];
        ReadBlock(env, alias, next, defaults, i + 1);
      }
    }
  }

  lemma BlockEnds(env: Env, c: Conf)
    ensures BlockLine(env, c, "}") == Done(c)
  {
    assert SkipSpaces("}") == "}";
    WordLengthIs("}", "");
    assert "}" + "" == "}";
    assert Upcase("}") == "}";
  }

  /** A comment or an empty line in a block changes nothing. */
  lemma BlockComment(env: Env, alias: string, c: Conf, l: string)
    requires SkipSpaces(l) == "" || SkipSpaces(l)[0] == '#'
    ensures Next(env, alias, Reading(c, "", true), l) == Reading(c, "", true)
  {
    hide SkipSpaces;
    var t := SkipSpaces(l);
    var w := WordOf(l);
    if t != "" {
      assert w[0] == '#' && Upcase(w)[0] == Upper('#') == '#';
    }
  }

  lemma BlockStarts(env: Env, alias: string, c: Conf)
    requires GoodAlias(alias)
    ensures Directive(env, alias, c, "default " + alias + " {") == Opened(c)
  {
    hide WordsIn, NumbersIn, PlainWord, Upcase, Locase, NoList, Directive, RestAfter;
    PlainCommand("default");
    TextLine(env, alias, c, "default", alias, "{");
    assert "default" + " " + alias + " " + "{" == "default " + alias + " {";
    var args := alias + [BLANK] + "{";
    assert args[|alias| + 1] == '{';
  }

  lemma ReadDefaults(env: Env, alias: string, c: Conf, defaults: seq<string>)
    requires GoodAlias(alias) && |defaults| == |OPTIONS| && c.defaults == ["", "", "", "", ""]
    requires forall j :: 0 <= j < |OPTIONS| && defaults[j] != "" ==> ValueOk(env, j, defaults[j])
    requires With(c.mask0, LIST_DEFAULT) == c.mask0 && Whole("default " + alias + " {")
    ensures ReadOn(env, alias, Reading(c, "", false),
                   ["default " + alias + " {"] + DefaultLines(defaults, 0) + ["}"]) ==
            Reading(c.(defaults := defaults), "", false)
  {
    hide BlockLine, Directive, ValueOk, With, DefaultLines, GoodAlias, Whole;
    var first, block := "default " + alias + " {", DefaultLines(defaults, 0);
    var r, c' := Reading(c, "", false), c.(defaults := defaults);
    ReadAppend(env, alias, r, [first] + block, ["}"]);
    ReadAppend(env, alias, r, [first], block);
    ReadWhole(env, alias, c, first);
    BlockStarts(env, alias, c);
    ReadBlock(env, alias, c, defaults, 0);
    ReadOne(env, alias, Reading(c', "", true), "}");
    BlockEnds(env, c');
  }
}
