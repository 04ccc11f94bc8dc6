/** What a reset list is like after reading the file that was written for it. */
module ConfigRoundTrip {
  import opened Text
  import opened AddressText
  import opened Numbers
  import opened DeliveryAddresses
  import opened ListConfig
  import opened ConfigLines
  import opened ConfigLaws

  // ---------------------------------------------------------------- the list after k groups

  function Upto(start: Conf, c: Conf, now: int, k: nat): Conf
  {
    var archived := Has(c.mask0, LIST_ARCHIVE | LIST_ARCHIVE_DIGEST);
    var digests := Has(c.mask0, LIST_DIGESTS);
    Conf(if k > 0 then (if c.created != 0 then c.created else now) else start.created,
         if k > 1 then c.mask0 else start.mask0, if k > 1 then c.mask1 else start.mask1,
         if k > 2 then c.setDisable else 0,
         if k > 3 && archived then c.archDir else "", if k > 3 && archived then c.archSpec else "",
         if k > 3 && archived then c.farchDir else "", if k > 3 && archived then c.archPass else "",
         if k > 4 && Has(c.mask0, LIST_MODERATED) then c.moderators else "",
         if k > 5 then c.managers else "", if k > 6 then c.errorsTo else "",
         if k > 7 && Has(c.mask0, LIST_DEFAULT) then c.defaults else ["", "", "", "", ""],
         if k > 8 && digests then c.digestTime else 60, if k > 8 && digests then c.digestLines else -1,
         if k > 8 && digests then c.digestBytes else -1,
         if k > 9 && Has(c.mask0, LIST_CEILING) then c.ceiling else 0,
         if k > 10 && Has(c.mask0, LIST_COMMENT) then c.comment else DEFAULT_COMMENT,
         if k > 11 then c.disabled else {}, {},
         if k > 13 then c.keywords else "", if k > 14 then c.password else start.password,
         if k > 15 then c.threads else 1,
         if k > 16 then c.mtaHost else "", if k > 16 then c.mtaPort else 0,
         if k > 17 then c.filter else Default, if k > 18 then c.web else Default)
  }

  /** A list whose values can stand in the file. */
  ghost predicate ConfOk(env: Env, alias: string, c: Conf)
  {
    && GoodAlias(alias) && GoodCommands(env.commands) && ValidShape(c)
    && (Has(c.mask0, LIST_ARCHIVE | LIST_ARCHIVE_DIGEST) ==> ArchiveOk(c))
    && !(Has(c.mask0, LIST_ARCHIVE) && Has(c.mask0, LIST_ARCHIVE_DIGEST))
    && (Has(c.mask0, LIST_MODERATED) ==> AddressesOk(c.moderators))
    && AddressesOk(c.managers) && AddressesOk(c.errorsTo)
    && (forall j :: 0 <= j < |OPTIONS| && c.defaults[j] != "" ==> ValueOk(env, j, c.defaults[j]))
    && TextOk(c.comment) && !FirstIs(c.comment, '#') && (c.keywords == "" || TextOk(c.keywords))
    && (forall b :: b in c.disabled ==> exists i :: 0 <= i < |env.commands| && env.commands[i].bit == Some(b))
    && PlainWord(c.password) && 0 < c.threads && (c.threads == 1 || c.threads <= env.nthreads - 1)
    && MtaOk(c) && ProgramOk(env, c.filter) && ProgramOk(env, c.web)
  }

  predicate TextOk(s: string) { s != "" && !IsSpace(s[0]) }

  // ---------------------------------------------------------------- masks

  lemma BitThere(m: bv32, bit: bv32)
    requires bit in {LIST_MODERATED, LIST_CEILING, LIST_COMMENT, LIST_DEFAULT}
    ensures With(m, bit) == m <==> Has(m, bit)
    ensures Has(With(m, bit), bit)
  {
  }

  lemma ArchiveBits(m: bv32)
    requires Has(m, LIST_ARCHIVE | LIST_ARCHIVE_DIGEST)
    ensures (if Has(m, LIST_ARCHIVE_DIGEST) then WithArchiveDigest(With(m, LIST_ARCHIVE))
            else With(m, LIST_ARCHIVE)) == m
            <==> !(Has(m, LIST_ARCHIVE) && Has(m, LIST_ARCHIVE_DIGEST))
  {
  }

  // ---------------------------------------------------------------- one group after another

  lemma NothingRead(env: Env, alias: string, c: Conf)
    ensures ReadOn(env, alias, Reading(c, "", false), []) == Reading(c, "", false)
  {
  }

  lemma OneWhole(env: Env, alias: string, c: Conf, l: string)
    requires WholeLines([l])
    ensures ReadOn(env, alias, Reading(c, "", false), [l]) == AfterResult(Directive(env, alias, c, l))
  {
    hide Directive, Whole;
    assert Whole([l][0]);
    ReadWhole(env, alias, c, l);
  }

  ghost predicate GroupRead(env: Env, alias: string, start: Conf, c: Conf, now: int, k: nat)
    requires ValidShape(c)
  {
    ReadOn(env, alias, Reading(Upto(start, c, now, k), "", false), Group(env, alias, c, now, k)) ==
    Reading(Upto(start, c, now, k + 1), "", false)
  }

  ghost predicate Stage(env: Env, alias: string, c: Conf, now: int, k: nat)
    requires ValidShape(c)
  {
    ConfOk(env, alias, c) && WholeLines(Group(env, alias, c, now, k))
  }

  lemma Stage0(env: Env, alias: string, start: Conf, c: Conf, now: int)
    requires ValidShape(c) && Stage(env, alias, c, now, 0) && IsFresh(start)
    ensures GroupRead(env, alias, start, c, now, 0)
  {
    hide Directive, Spaced, Has, GoodAlias, ReadOn, GoodCommands, AddressesOk, ValueOk, ProgramOk, ArchiveOk,
      MtaOk, PlainWord;
    var n := if c.created != 0 then c.created else now;
    OneWhole(env, alias, Upto(start, c, now, 0), Spaced(["creation_date", alias, DecInt(n)]));
    ReadCreated(env, alias, Upto(start, c, now, 0), n);
  }

  predicate IsFresh(c: Conf) { c == Fresh(c.mask0, c.password) }

  lemma Stage1(env: Env, alias: string, start: Conf, c: Conf, now: int)
    requires ValidShape(c) && Stage(env, alias, c, now, 1) && IsFresh(start)
    ensures GroupRead(env, alias, start, c, now, 1)
  {
    hide Directive, Spaced, Has, GoodAlias, ReadOn, Dec, GoodCommands, AddressesOk, ValueOk, ProgramOk,
      ArchiveOk, MtaOk, PlainWord;
    var was := Upto(start, c, now, 1);
    OneWhole(env, alias, was, Spaced(["mask", alias, Dec(c.mask0 as nat), Dec(c.mask1 as nat)]));
    ReadMask(env, alias, was, c.mask0, c.mask1);
  }

  lemma Stage2(env: Env, alias: string, start: Conf, c: Conf, now: int)
    requires ValidShape(c) && Stage(env, alias, c, now, 2) && IsFresh(start)
    ensures GroupRead(env, alias, start, c, now, 2)
  {
    hide Directive, Spaced, Has, GoodAlias, ReadOn, GoodCommands, AddressesOk, ValueOk, ProgramOk, ArchiveOk,
      MtaOk, PlainWord;
    var was := Upto(start, c, now, 2);
    if c.setDisable != 0 {
      OneWhole(env, alias, was, Spaced(["set-disable", alias, DecInt(c.setDisable)]));
      ReadSetDisable(env, alias, was, c.setDisable);
    } else {
      NothingRead(env, alias, was);
    }
  }

  lemma Stage3(env: Env, alias: string, start: Conf, c: Conf, now: int)
    requires ValidShape(c) && Stage(env, alias, c, now, 3) && IsFresh(start)
    ensures GroupRead(env, alias, start, c, now, 3)
  {
    hide Directive, Spaced, Has, GoodAlias, ReadOn, With, WithArchiveDigest, ArchiveLine, ArchiveOk,
      GoodCommands, AddressesOk, ValueOk, ProgramOk, MtaOk, PlainWord;
    var was := Upto(start, c, now, 3);
    if Has(c.mask0, LIST_ARCHIVE | LIST_ARCHIVE_DIGEST) {
      OneWhole(env, alias, was, ArchiveLine(alias, c));
      ReadArchive(env, alias, was, c);
      ArchiveBits(c.mask0);
    } else {
      NothingRead(env, alias, was);
    }
  }

  lemma Stage4(env: Env, alias: string, start: Conf, c: Conf, now: int)
    requires ValidShape(c) && Stage(env, alias, c, now, 4) && IsFresh(start)
    ensures GroupRead(env, alias, start, c, now, 4)
  {
    hide Directive, Spaced, Has, GoodAlias, ReadOn, With, Addresses, Joined, ReadsBack, LinesFor, GoodCommands,
      ValueOk, ProgramOk, ArchiveOk, MtaOk, PlainWord;
    var was := Upto(start, c, now, 4);
    if Has(c.mask0, LIST_MODERATED) {
      BitThere(c.mask0, LIST_MODERATED);
      ReadModerators(env, alias, was, Addresses(c.moderators));
      assert "" + c.moderators == c.moderators;
    } else {
      NothingRead(env, alias, was);
    }
  }

  lemma Stage5(env: Env, alias: string, start: Conf, c: Conf, now: int)
    requires ValidShape(c) && Stage(env, alias, c, now, 5) && IsFresh(start)
    ensures GroupRead(env, alias, start, c, now, 5)
  {
    hide Directive, Spaced, Has, GoodAlias, ReadOn, With, Addresses, Joined, ReadsBack, LinesFor, GoodCommands,
      ValueOk, ProgramOk, ArchiveOk, MtaOk, PlainWord;
    var was := Upto(start, c, now, 5);
    ReadManagers(env, alias, was, Addresses(c.managers));
    assert "" + c.managers == c.managers;
  }

  lemma Stage6(env: Env, alias: string, start: Conf, c: Conf, now: int)
    requires ValidShape(c) && Stage(env, alias, c, now, 6) && IsFresh(start)
    ensures GroupRead(env, alias, start, c, now, 6)
  {
    hide Directive, Spaced, Has, GoodAlias, ReadOn, With, Addresses, Joined, ReadsBack, LinesFor, GoodCommands,
      ValueOk, ProgramOk, ArchiveOk, MtaOk, PlainWord;
    var was := Upto(start, c, now, 6);
    ReadErrors(env, alias, was, Addresses(c.errorsTo));
    assert "" + c.errorsTo == c.errorsTo;
  }

  lemma Stage7(env: Env, alias: string, start: Conf, c: Conf, now: int)
    requires ValidShape(c) && Stage(env, alias, c, now, 7) && IsFresh(start)
    ensures GroupRead(env, alias, start, c, now, 7)
  {
    hide Directive, Has, GoodAlias, ReadOn, With, DefaultLines, ValueOk, Whole, GoodCommands, AddressesOk,
      ProgramOk, ArchiveOk, MtaOk, PlainWord;
    var was := Upto(start, c, now, 7);
    if Has(c.mask0, LIST_DEFAULT) {
      BitThere(c.mask0, LIST_DEFAULT);
      assert Whole(Group(env, alias, c, now, 7)[0]);
      ReadDefaults(env, alias, was, c.defaults);
    } else {
      NothingRead(env, alias, was);
    }
  }

  lemma Stage8(env: Env, alias: string, start: Conf, c: Conf, now: int)
    requires ValidShape(c) && Stage(env, alias, c, now, 8) && IsFresh(start)
    ensures GroupRead(env, alias, start, c, now, 8)
  {
    hide Directive, Spaced, Has, GoodAlias, ReadOn, DecInt, GoodCommands, AddressesOk, ValueOk, ProgramOk,
      ArchiveOk, MtaOk, PlainWord;
    var was := Upto(start, c, now, 8);
    if Has(c.mask0, LIST_DIGESTS) {
      OneWhole(env, alias, was,
               Spaced(["digest", alias, DecInt(c.digestTime), DecInt(c.digestLines), DecInt(c.digestBytes)]));
      ReadDigest(env, alias, was, c.digestTime, c.digestLines, c.digestBytes);
    } else {
      NothingRead(env, alias, was);
    }
  }

  lemma Stage9(env: Env, alias: string, start: Conf, c: Conf, now: int)
    requires ValidShape(c) && Stage(env, alias, c, now, 9) && IsFresh(start)
    ensures GroupRead(env, alias, start, c, now, 9)
  {
    hide Directive, Spaced, Has, GoodAlias, ReadOn, DecInt, With, GoodCommands, AddressesOk, ValueOk,
      ProgramOk, ArchiveOk, MtaOk, PlainWord;
    var was := Upto(start, c, now, 9);
    if Has(c.mask0, LIST_CEILING) {
      OneWhole(env, alias, was, Spaced(["ceiling", alias, DecInt(c.ceiling)]));
      ReadCeiling(env, alias, was, c.ceiling);
      BitThere(c.mask0, LIST_CEILING);
    } else {
      NothingRead(env, alias, was);
    }
  }

  lemma Stage10(env: Env, alias: string, start: Conf, c: Conf, now: int)
    requires ValidShape(c) && Stage(env, alias, c, now, 10) && IsFresh(start)
    ensures GroupRead(env, alias, start, c, now, 10)
  {
    hide Directive, Has, GoodAlias, GoodCommands, ReadOn, With, AddressesOk, ValueOk, ProgramOk, ArchiveOk,
      MtaOk, PlainWord;
    var was := Upto(start, c, now, 10);
    if Has(c.mask0, LIST_COMMENT) && c.comment != DEFAULT_COMMENT {
      OneWhole(env, alias, was, "comment " + alias + " " + c.comment);
      ReadComment(env, alias, was, c.comment);
      BitThere(c.mask0, LIST_COMMENT);
    } else {
      NothingRead(env, alias, was);
    }
  }

  lemma Stage11(env: Env, alias: string, start: Conf, c: Conf, now: int)
    requires ValidShape(c) && Stage(env, alias, c, now, 11) && IsFresh(start)
    ensures ReadOn(env, alias, Reading(Upto(start, c, now, 11), "", false), Group(env, alias, c, now, 11)) ==
            if Distinct(env.commands, c.disabled, 0) then Reading(Upto(start, c, now, 12), "", false) else Stopped
  {
    hide Directive, Has, GoodAlias, GoodCommands, ReadOn, CommandLines, BitsIn, Distinct, Upto, Group,
      AddressesOk, ValueOk, ProgramOk, ArchiveOk, MtaOk, PlainWord;
    var was := Upto(start, c, now, 11);
    assert env.commands[0..] == env.commands;
    DisabledGroup(env, alias, start, c, now);
    ReadDisabled(env, alias, was, 0, c.disabled);
    AllBitsIn(env.commands, c.disabled);
    assert {} + c.disabled == c.disabled;
  }

  lemma DisabledGroup(env: Env, alias: string, start: Conf, c: Conf, now: int)
    requires ValidShape(c)
    ensures Group(env, alias, c, now, 11) == CommandLines("disable", alias, env.commands, c.disabled)
    ensures Upto(start, c, now, 11).disabled == {}
    ensures Upto(start, c, now, 12) == Upto(start, c, now, 11).(disabled := c.disabled)
  {
    hide Has, CommandLines;
  }

  lemma Stage12(env: Env, alias: string, start: Conf, c: Conf, now: int)
    requires ValidShape(c) && Stage(env, alias, c, now, 12) && IsFresh(start)
    ensures GroupRead(env, alias, start, c, now, 12)
  {
    hide Directive, Has, GoodAlias, ReadOn, CommandLines, PlainWord, AddressesOk, ValueOk, ProgramOk,
      ArchiveOk, MtaOk;
    var was := Upto(start, c, now, 12);
    ReadRestricted(env, alias, was, env.commands, c.restricted);
  }

  lemma Stage13(env: Env, alias: string, start: Conf, c: Conf, now: int)
    requires ValidShape(c) && Stage(env, alias, c, now, 13) && IsFresh(start)
    ensures GroupRead(env, alias, start, c, now, 13)
  {
    hide Directive, Has, GoodAlias, ReadOn, GoodCommands, AddressesOk, ValueOk, ProgramOk, ArchiveOk, MtaOk,
      PlainWord;
    var was := Upto(start, c, now, 13);
    if c.keywords != "" {
      OneWhole(env, alias, was, "keywords " + alias + " " + c.keywords);
      ReadKeywords(env, alias, was, c.keywords);
    } else {
      NothingRead(env, alias, was);
    }
  }

  lemma Stage14(env: Env, alias: string, start: Conf, c: Conf, now: int)
    requires ValidShape(c) && Stage(env, alias, c, now, 14) && IsFresh(start)
    ensures GroupRead(env, alias, start, c, now, 14)
  {
    hide Directive, Spaced, Has, GoodAlias, ReadOn, PlainWord, GoodCommands, AddressesOk, ValueOk, ProgramOk,
      ArchiveOk, MtaOk;
    var was := Upto(start, c, now, 14);
    PlainNonEmpty(c.password);
    OneWhole(env, alias, was, Spaced(["passwd", alias, c.password]));
    ReadPasswd(env, alias, was, c.password);
  }

  lemma Stage15(env: Env, alias: string, start: Conf, c: Conf, now: int)
    requires ValidShape(c) && Stage(env, alias, c, now, 15) && IsFresh(start)
    ensures GroupRead(env, alias, start, c, now, 15)
  {
    hide Directive, Spaced, Has, GoodAlias, ReadOn, DecInt, GoodCommands, AddressesOk, ValueOk, ProgramOk,
      ArchiveOk, MtaOk, PlainWord;
    var was := Upto(start, c, now, 15);
    OneWhole(env, alias, was, Spaced(["threads", alias, DecInt(c.threads)]));
    ReadThreads(env, alias, was, c.threads);
  }

  lemma Stage16(env: Env, alias: string, start: Conf, c: Conf, now: int)
    requires ValidShape(c) && Stage(env, alias, c, now, 16) && IsFresh(start)
    ensures GroupRead(env, alias, start, c, now, 16)
  {
    hide Directive, Has, GoodAlias, GoodCommands, ReadOn, MtaLine, MtaOk, AddressesOk, ValueOk, ProgramOk,
      ArchiveOk, PlainWord;
    var was := Upto(start, c, now, 16);
    if c.mtaHost != "" || c.mtaPort != 0 {
      OneWhole(env, alias, was, MtaLine(alias, c));
      ReadMta(env, alias, was, c);
    } else {
      NothingRead(env, alias, was);
    }
  }

  lemma Stage17(env: Env, alias: string, start: Conf, c: Conf, now: int)
    requires ValidShape(c) && Stage(env, alias, c, now, 17) && IsFresh(start)
    ensures GroupRead(env, alias, start, c, now, 17)
  {
    hide Directive, Has, GoodAlias, ReadOn, ProgramLine, ProgramOk, GoodCommands, AddressesOk, ValueOk,
      ArchiveOk, MtaOk, PlainWord;
    var was := Upto(start, c, now, 17);
    OneWhole(env, alias, was, ProgramLine("filter_prog", alias, c.filter, env.dir));
    ReadFilter(env, alias, was, c.filter);
  }

  lemma Stage18(env: Env, alias: string, start: Conf, c: Conf, now: int)
    requires ValidShape(c) && Stage(env, alias, c, now, 18) && IsFresh(start)
    ensures GroupRead(env, alias, start, c, now, 18)
  {
    hide Directive, Has, GoodAlias, ReadOn, ProgramLine, ProgramOk, GoodCommands, AddressesOk, ValueOk,
      ArchiveOk, MtaOk, PlainWord;
    var was := Upto(start, c, now, 18);
    OneWhole(env, alias, was, ProgramLine("web_archive", alias, c.web, env.dir));
    ReadWeb(env, alias, was, c.web);
  }

  lemma OneGroup(env: Env, alias: string, start: Conf, c: Conf, now: int, k: nat)
    requires ValidShape(c) && k < GROUPS && k != 11 && Stage(env, alias, c, now, k) && IsFresh(start)
    ensures GroupRead(env, alias, start, c, now, k)
  {
    hide Stage, GroupRead, IsFresh;
    match k
    case 0 => Stage0(env, alias, start, c, now);
    case 1 => Stage1(env, alias, start, c, now);
    case 2 => Stage2(env, alias, start, c, now);
    case 3 => Stage3(env, alias, start, c, now);
    case 4 => Stage4(env, alias, start, c, now);
    case 5 => Stage5(env, alias, start, c, now);
    case 6 => Stage6(env, alias, start, c, now);
    case 7 => Stage7(env, alias, start, c, now);
    case 8 => Stage8(env, alias, start, c, now);
    case 9 => Stage9(env, alias, start, c, now);
    case 10 => Stage10(env, alias, start, c, now);
    case 12 => Stage12(env, alias, start, c, now);
    case 13 => Stage13(env, alias, start, c, now);
    case 14 => Stage14(env, alias, start, c, now);
    case 15 => Stage15(env, alias, start, c, now);
    case 16 => Stage16(env, alias, start, c, now);
    case 17 => Stage17(env, alias, start, c, now);
    case 18 => Stage18(env, alias, start, c, now);
  }

  /** The reader after k groups of the file. */
  ghost function ReaderAt(env: Env, start: Conf, c: Conf, now: int, k: nat): Reader
  {
    if k > 11 && !Distinct(env.commands, c.disabled, 0) then Stopped else Reading(Upto(start, c, now, k), "", false)
  }

  lemma {:induction false} GroupsRead(env: Env, alias: string, start: Conf, c: Conf, now: int, k: nat)
    requires k <= GROUPS && ValidShape(c) && ConfOk(env, alias, c) && IsFresh(start)
    requires WholeLines(Groups(env, alias, c, now, k))
    ensures ReadOn(env, alias, Reading(Upto(start, c, now, 0), "", false), Groups(env, alias, c, now, k)) ==
            ReaderAt(env, start, c, now, k)
  {
    hide Group, Groups, Upto, ConfOk, WholeLines, IsFresh, ReadOn, Distinct;
    if k == 0 {
      GroupsStep(env, alias, c, now, 0);
      NothingRead(env, alias, Upto(start, c, now, 0));
    } else {
      var a, b := Groups(env, alias, c, now, k - 1), Group(env, alias, c, now, k - 1);
      GroupsStep(env, alias, c, now, k - 1);
      BothWhole(a, b);
      GroupsRead(env, alias, start, c, now, k - 1);
      ReadAppend(env, alias, Reading(Upto(start, c, now, 0), "", false), a, b);
      if k - 1 == 11 {
        Stage11(env, alias, start, c, now);
      } else if ReaderAt(env, start, c, now, k - 1).Stopped? {
        Refused(env, alias, b);
      } else {
        OneGroup(env, alias, start, c, now, k - 1);
      }
    }
  }

  lemma BothWhole(a: seq<string>, b: seq<string>)
    requires WholeLines(a + b)
    ensures WholeLines(a) && WholeLines(b)
  {
    hide Whole;
    forall i | 0 <= i < |a| ensures Whole(a[i]) {
      assert (a + b)[i] == a[i];
    }
    forall i | 0 <= i < |b| ensures Whole(b[i]) {
      assert (a + b)[|a| + i] == b[i];
    }
  }

  /** A reset list that reads the file has every value that was written, if and only
      if no disabled command has a name that starts the name of another command; else
      the file is refused. What has no line, because its bit is not set, is as in a
      reset list; restrictions are lost. */
  lemma ConfigIsReadBack(env: Env, alias: string, start: Conf, c: Conf, now: int)
    requires ValidShape(c) && ConfOk(env, alias, c) && IsFresh(start) && WholeLines(Written(env, alias, c, now))
    ensures var r := ReadAll(env, alias, Reading(start, "", false), Written(env, alias, c, now));
            && (Distinct(env.commands, c.disabled, 0) <==> r == Reading(Upto(start, c, now, GROUPS), "", false))
            && (!Distinct(env.commands, c.disabled, 0) ==> r.Stopped?)
  {
    hide Groups, ConfOk, Whole, Distinct, Directive, Upto, ReadOn;
    StartIsFresh(start, c, now);
    GroupsRead(env, alias, start, c, now, GROUPS);
    EmptyDirective(env, alias, Upto(start, c, now, GROUPS));
  }

  lemma StartIsFresh(start: Conf, c: Conf, now: int)
    requires IsFresh(start)
    ensures Upto(start, c, now, 0) == start
  {
    hide Has;
  }

  // ---------------------------------------------------------------- what is needed for it

  /** A list with both archive bits loses the first. */
  lemma BothArchiveBits(env: Env, alias: string, was: Conf, c: Conf)
    requires GoodAlias(alias) && ArchiveOk(c) && was.mask0 == c.mask0 &&
             Has(c.mask0, LIST_ARCHIVE | LIST_ARCHIVE_DIGEST)
    ensures var r := Directive(env, alias, was, ArchiveLine(alias, c));
            r.Done? && (r.conf.mask0 == c.mask0 <==> !(Has(c.mask0, LIST_ARCHIVE) && Has(c.mask0, LIST_ARCHIVE_DIGEST)))
  {
    hide Directive, ArchiveLine, GoodAlias, ArchiveOk, Has, With, WithArchiveDigest;
    ReadArchive(env, alias, was, c);
    ArchiveBits(c.mask0);
  }

  /** An absolute path is read back just when it is not cut in the middle of a name. */
  lemma PathBackIff(dir: string, path: string)
    requires PlainWord(path) && FirstIs(path, '/') && FirstIs(dir, '/')
    ensures var s := Shortened(dir, path);
            (s != "" && (if !FirstIs(s, '/') then dir + "/" + s else s) == path) <==> PathOk(dir, path)
  {
    if PathOk(dir, path) {
      PathBack(dir, path);
    } else {
      var s := Shortened(dir, path);
      assert s == if |path| > |dir| then path[|dir| + 1..] else "";
      if s != "" && !FirstIs(s, '/') {
        assert (dir + "/" + s)[|dir|] == '/';
      }
    }
  }
}
