/** The commands of the program (bins/listproc/listproc.c), with which a list's
    configuration is read and written. */
module CommandTable {
  import opened Text
  import opened TextFiles
  import opened AddressText
  import opened ListConfig
  import opened ConfigLines
  import opened ConfigLaws
  import opened ConfigRoundTrip

  const MAX_COMMANDS: nat := 51
  const WHICH: nat := 41
  const WHICH_OWNED: nat := 50

  function CommandAt(i: nat): Command
  {
    match i
    case 0 => Command("INTERNAL_NOTIFY", None)
    case 1 => Command("NOTIFY_OWNERS", None)
    case 2 => Command("HELP", None)
    case 3 => Command("INFORMATION", None)
    case 4 => Command("RELEASE", None)
    case 5 => Command("VERSION", None)
    case 6 => Command("SET", Some(0))
    case 7 => Command("QUERY", Some(0))
    case 8 => Command("SUBSCRIBE", Some(1))
    case 9 => Command("ADD", Some(1))
    case 10 => Command("JOIN", Some(1))
    case 11 => Command("UNSUBSCRIBE", Some(2))
    case 12 => Command("SIGNOFF", Some(2))
    case 13 => Command("DELETE", Some(2))
    case 14 => Command("RECIPIENTS", Some(3))
    case 15 => Command("REVIEW", Some(3))
    case 16 => Command("STATISTICS", Some(4))
    case 17 => Command("STATS", Some(4))
    case 18 => Command("LISTS", Some(5))
    case 19 => Command("INDEX", Some(6))
    case 20 => Command("GET", Some(7))
    case 21 => Command("VIEW", Some(7))
    case 22 => Command("SENDME", Some(7))
    case 23 => Command("SYSTEM", Some(8))
    case 24 => Command("REPORTS", Some(9))
    case 25 => Command("EDIT", Some(10))
    case 26 => Command("PUT", Some(11))
    case 27 => Command("ALIAS", Some(11))
    case 28 => Command("IGNORE", Some(11))
    case 29 => Command("APPROVE", Some(12))
    case 30 => Command("DISCARD", Some(13))
    case 31 => Command("EXECUTE", Some(14))
    case 32 => Command("RUN", Some(15))
    case 33 => Command("FAX", Some(16))
    case 34 => Command("SEARCH", Some(17))
    case 35 => Command("SHUTDOWN", Some(18))
    case 36 => Command("RESTART", Some(18))
    case 37 => Command("HOLD", Some(19))
    case 38 => Command("FREE", Some(19))
    case 39 => Command("LOCK", Some(19))
    case 40 => Command("UNLOCK", Some(19))
    case 41 => Command("WHICH", Some(20))
    case 42 => Command("CONFIGURATION", Some(21))
    case 43 => Command("CONFIGURE", Some(21))
    case 44 => Command("INITIALIZE", Some(22))
    case 45 => Command("NEW-LIST", Some(22))
    case 46 => Command("PURGE", Some(23))
    case 47 => Command("AFD", Some(24))
    case 48 => Command("FUI", Some(24))
    case 49 => Command("ARCHIVE", Some(25))
    case 50 => Command("WHICH-OWNED", Some(26))
    case _ => Command("", None)
  }

  const COMMANDS: seq<Command> := seq(MAX_COMMANDS, i requires 0 <= i < MAX_COMMANDS => CommandAt(i))

  function NameAt(i: nat): string { CommandAt(i).name }

  // ---------------------------------------------------------------- the names are words

  predicate NameChar(c: char) { 'A' <= c <= 'Z' || c == '-' || c == '_' }

  predicate AllNameChars(w: string) { w != "" && forall k :: 0 <= k < |w| ==> NameChar(w[k]) }

  lemma NameChars1(i: nat)
    requires i < 7
    ensures AllNameChars(NameAt(i))
  {
  }

  lemma NameChars2(i: nat)
    requires 7 <= i < 14
    ensures AllNameChars(NameAt(i))
  {
  }

  lemma NameChars3(i: nat)
    requires 14 <= i < 21
    ensures AllNameChars(NameAt(i))
  {
  }

  lemma NameChars4(i: nat)
    requires 21 <= i < 28
    ensures AllNameChars(NameAt(i))
  {
  }

  lemma NameChars5(i: nat)
    requires 28 <= i < 35
    ensures AllNameChars(NameAt(i))
  {
  }

  lemma NameChars6(i: nat)
    requires 35 <= i < 41
    ensures AllNameChars(NameAt(i))
  {
  }

  lemma NameChars7(i: nat)
    requires 41 <= i < 44
    ensures AllNameChars(NameAt(i))
  {
  }

  lemma NameChars8(i: nat)
    requires 44 <= i < 48
    ensures AllNameChars(NameAt(i))
  {
  }

  lemma NameChars9(i: nat)
    requires 48 <= i < MAX_COMMANDS
    ensures AllNameChars(NameAt(i))
  {
  }

  lemma NameIsWord(w: string)
    requires AllNameChars(w)
    ensures PlainWord(w) && Upcase(w) == w
  {
  }

  lemma TableIsGood()
    ensures GoodCommands(COMMANDS)
  {
    hide CommandAt, AllNameChars, PlainWord, Upcase;
    forall i | 0 <= i < |COMMANDS| ensures PlainWord(COMMANDS[i].name) && Upcase(COMMANDS[i].name) == COMMANDS[i].name {
      if i < 7 {
        NameChars1(i);
      } else if i < 14 {
        NameChars2(i);
      } else if i < 21 {
        NameChars3(i);
      } else if i < 28 {
        NameChars4(i);
      } else if i < 35 {
        NameChars5(i);
      } else if i < 41 {
        NameChars6(i);
      } else if i < 44 {
        NameChars7(i);
      } else if i < 48 {
        NameChars8(i);
      } else {
        NameChars9(i);
      }
      NameIsWord(NameAt(i));
    }
  }

  // ---------------------------------------------------------------- which names start others

  /** The three letters a name starts with. */
  datatype Head = Head(a: char, b: char, c: char)

  function HeadAt(i: nat): Head
  {
    match i
    case 0 => Head('I', 'N', 'T')
    case 1 => Head('N', 'O', 'T')
    case 2 => Head('H', 'E', 'L')
    case 3 => Head('I', 'N', 'F')
    case 4 => Head('R', 'E', 'L')
    case 5 => Head('V', 'E', 'R')
    case 6 => Head('S', 'E', 'T')
    case 7 => Head('Q', 'U', 'E')
    case 8 => Head('S', 'U', 'B')
    case 9 => Head('A', 'D', 'D')
    case 10 => Head('J', 'O', 'I')
    case 11 => Head('U', 'N', 'S')
    case 12 => Head('S', 'I', 'G')
    case 13 => Head('D', 'E', 'L')
    case 14 => Head('R', 'E', 'C')
    case 15 => Head('R', 'E', 'V')
    case 16 => Head('S', 'T', 'A')
    case 17 => Head('S', 'T', 'A')
    case 18 => Head('L', 'I', 'S')
    case 19 => Head('I', 'N', 'D')
    case 20 => Head('G', 'E', 'T')
    case 21 => Head('V', 'I', 'E')
    case 22 => Head('S', 'E', 'N')
    case 23 => Head('S', 'Y', 'S')
    case 24 => Head('R', 'E', 'P')
    case 25 => Head('E', 'D', 'I')
    case 26 => Head('P', 'U', 'T')
    case 27 => Head('A', 'L', 'I')
    case 28 => Head('I', 'G', 'N')
    case 29 => Head('A', 'P', 'P')
    case 30 => Head('D', 'I', 'S')
    case 31 => Head('E', 'X', 'E')
    case 32 => Head('R', 'U', 'N')
    case 33 => Head('F', 'A', 'X')
    case 34 => Head('S', 'E', 'A')
    case 35 => Head('S', 'H', 'U')
    case 36 => Head('R', 'E', 'S')
    case 37 => Head('H', 'O', 'L')
    case 38 => Head('F', 'R', 'E')
    case 39 => Head('L', 'O', 'C')
    case 40 => Head('U', 'N', 'L')
    case 41 => Head('W', 'H', 'I')
    case 42 => Head('C', 'O', 'N')
    case 43 => Head('C', 'O', 'N')
    case 44 => Head('I', 'N', 'I')
    case 45 => Head('N', 'E', 'W')
    case 46 => Head('P', 'U', 'R')
    case 47 => Head('A', 'F', 'D')
    case 48 => Head('F', 'U', 'I')
    case 49 => Head('A', 'R', 'C')
    case 50 => Head('W', 'H', 'I')
    case _ => Head(' ', ' ', ' ')
  }

  predicate HasHead(w: string, h: Head) { |w| >= 3 && Head(w[0], w[1], w[2]) == h }

  lemma Heads1(i: nat)
    requires i < 17
    ensures HasHead(NameAt(i), HeadAt(i))
  {
  }

  lemma Heads2(i: nat)
    requires 17 <= i < 34
    ensures HasHead(NameAt(i), HeadAt(i))
  {
  }

  lemma Heads3(i: nat)
    requires 34 <= i < MAX_COMMANDS
    ensures HasHead(NameAt(i), HeadAt(i))
  {
  }

  lemma HeadIs(i: nat)
    requires i < MAX_COMMANDS
    ensures HasHead(NameAt(i), HeadAt(i))
  {
    hide CommandAt, HeadAt, HasHead;
    if i < 17 {
      Heads1(i);
    } else if i < 34 {
      Heads2(i);
    } else {
      Heads3(i);
    }
  }

  lemma SameHeadLow(i: nat, j: nat)
    requires i < j < MAX_COMMANDS && i < 20 && HeadAt(i) == HeadAt(j)
    ensures i == 16 && j == 17
  {
  }

  lemma SameHeadMiddle(i: nat, j: nat)
    requires 20 <= i < 36 && i < j < MAX_COMMANDS
    ensures HeadAt(i) != HeadAt(j)
  {
  }

  lemma SameHeadHigh(i: nat, j: nat)
    requires 36 <= i < j < MAX_COMMANDS && HeadAt(i) == HeadAt(j)
    ensures (i == 42 && j == 43) || (i == WHICH && j == WHICH_OWNED)
  {
  }

  lemma StartHasHead(w: string, v: string, g: Head, h: Head)
    requires StartsWith(v, w) && HasHead(w, g) && HasHead(v, h)
    ensures g == h
  {
    assert v[..|w|][0] == v[0] && v[..|w|][1] == v[1] && v[..|w|][2] == v[2];
  }

  lemma NotStarts(v: string, w: string, k: nat)
    requires k < |w| && (k < |v| ==> v[k] != w[k])
    ensures !StartsWith(v, w)
  {
    if |w| <= |v| {
      assert v[..|w|][k] == v[k];
    }
  }

  // The pairs whose first three letters are the same.

  lemma Statistics()
    ensures !StartsWith(NameAt(16), NameAt(17)) && !StartsWith(NameAt(17), NameAt(16))
  {
    NotStarts("STATISTICS", "STATS", 4);
    NotStarts("STATS", "STATISTICS", 4);
  }

  lemma Configurations()
    ensures !StartsWith(NameAt(42), NameAt(43)) && !StartsWith(NameAt(43), NameAt(42))
  {
    NotStarts("CONFIGURATION", "CONFIGURE", 8);
    NotStarts("CONFIGURE", "CONFIGURATION", 8);
  }

  lemma Whiches()
    ensures StartsWith(NameAt(WHICH_OWNED), NameAt(WHICH)) && !StartsWith(NameAt(WHICH), NameAt(WHICH_OWNED))
  {
    NotStarts("WHICH", "WHICH-OWNED", 5);
    assert "WHICH-OWNED"[..5] == "WHICH";
  }

  /** One name starts another one in one case only. */
  lemma OnlyWhich(i: nat, j: nat)
    requires i < MAX_COMMANDS && j < MAX_COMMANDS && i != j
    ensures StartsWith(NameAt(j), NameAt(i)) <==> i == WHICH && j == WHICH_OWNED
  {
    hide NameAt, HeadAt, StartsWith, HasHead;
    Statistics();
    Configurations();
    Whiches();
    if StartsWith(NameAt(j), NameAt(i)) {
      HeadIs(i);
      HeadIs(j);
      StartHasHead(NameAt(i), NameAt(j), HeadAt(i), HeadAt(j));
      var m, n := if i < j then i else j, if i < j then j else i;
      if m < 20 {
        SameHeadLow(m, n);
      } else if m < 36 {
        SameHeadMiddle(m, n);
      } else {
        SameHeadHigh(m, n);
      }
    }
  }

  lemma BitOfWhich(i: nat)
    requires i < MAX_COMMANDS
    ensures CommandAt(i).bit == Some(20) <==> i == WHICH
  {
  }

  /** Of the program's own commands, WHICH alone cannot be disabled in a file. */
  lemma AllButWhich(bits: set<nat>)
    ensures Distinct(COMMANDS, bits, 0) <==> 20 !in bits
  {
    hide CommandAt, StartsWith;
    BitOfWhich(WHICH);
    OnlyWhich(WHICH, WHICH_OWNED);
    if 20 in bits {
      assert Masked(COMMANDS[WHICH], bits);
      assert StartsWith(COMMANDS[WHICH_OWNED].name, COMMANDS[WHICH].name);
      assert !Alone(COMMANDS, WHICH);
    } else {
      forall k | 0 <= k < |COMMANDS| && Masked(COMMANDS[k], bits) ensures Alone(COMMANDS, k) {
        BitOfWhich(k);
        forall j | 0 <= j < |COMMANDS| && j != k ensures !StartsWith(COMMANDS[j].name, COMMANDS[k].name) {
          OnlyWhich(k, j);
        }
      }
    }
  }

  /** The configuration of a list of the program is read back if and only if WHICH is
      not disabled; a file that disables it is refused. */
  lemma ReadBackUnlessWhich(env: Env, alias: string, start: Conf, c: Conf, now: int)
    requires env.commands == COMMANDS && ValidShape(c) && ConfOk(env, alias, c) && IsFresh(start)
    requires WholeLines(Written(env, alias, c, now))
    ensures var r := ReadAll(env, alias, Reading(start, "", false), Written(env, alias, c, now));
            && (20 !in c.disabled <==> r == Reading(Upto(start, c, now, GROUPS), "", false))
            && (20 in c.disabled ==> r.Stopped?)
  {
    hide ConfOk, WholeLines, IsFresh, Written, ReadAll, Upto, Distinct;
    AllButWhich(c.disabled);
    ConfigIsReadBack(env, alias, start, c, now);
  }
}
