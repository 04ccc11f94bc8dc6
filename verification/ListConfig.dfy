/** The configuration file of a list: what configuration() writes at its end
    (commands/configuration.c), and what sys_config_aux makes of each line
    (lplib/misc.c, lputil/lpconfig.c). */
module ListConfig {
  import opened Text
  import opened TextFiles
  import opened AddressText
  import opened Numbers
  import opened DeliveryAddresses

  // ---------------------------------------------------------------- the list

  datatype Program = Default | Off | Run(words: seq<string>)

  /** What the file holds of a list; address lists have a blank behind each address. */
  datatype Conf = Conf(created: int, mask0: bv32, mask1: bv32, setDisable: int,
                       archDir: string, archSpec: string, farchDir: string, archPass: string,
                       moderators: string, managers: string, errorsTo: string, defaults: seq<string>,
                       digestTime: int, digestLines: int, digestBytes: int, ceiling: int, comment: string,
                       disabled: set<nat>, restricted: set<nat>, keywords: string, password: string, threads: int,
                       mtaHost: string, mtaPort: int, filter: Program, web: Program)

  /** A command, and the number of its bit in the masks of commands; some have none. */
  datatype Command = Command(name: string, bit: Option<nat>)

  predicate Masked(c: Command, bits: set<nat>) { c.bit.Some? && c.bit.value in bits }

  /** What is outside the file: the commands, which values an option takes, the
      directory of the installation, what can be executed, the system's threads. */
  datatype Env = Env(commands: seq<Command>, valid: (nat, string) -> bool, dir: string,
                     executable: string -> bool, nthreads: int)

  const LIST_ARCHIVE: bv32 := 0x20
  const LIST_ARCHIVE_DIGEST: bv32 := 0x40
  const LIST_MODERATED: bv32 := 0x4000
  const LIST_DIGESTS: bv32 := 0x70000
  const LIST_CEILING: bv32 := 0x80000
  const LIST_COMMENT: bv32 := 0x100000
  const LIST_DEFAULT: bv32 := 0x200000

  predicate Has(m: bv32, bits: bv32) { m & bits != 0 }

  function With(m: bv32, bits: bv32): bv32 { m | bits }

  /** LIST_RESET_ARCHIVE, then the digest bit */
  function WithArchiveDigest(m: bv32): bv32 { (m & !(LIST_ARCHIVE | LIST_ARCHIVE_DIGEST)) | LIST_ARCHIVE_DIGEST }

  const DEFAULT_COMMENT: string := "Multiple recipients of list"
  const OPTIONS: seq<string> := ["ADDRESS", "MAIL", "PASSWORD", "CONCEAL", "PREFERENCE"]
  const SET_PASSWORD: nat := 2
  const SET_PREFERENCE: nat := 4

  /** A list that has just been reset. */
  function Fresh(mask0: bv32, password: string): Conf
  {
    Conf(0, mask0, 0, 0, "", "", "", "", "", "", "", ["", "", "", "", ""], 60, -1, -1, 0, DEFAULT_COMMENT,
         {}, {}, "", password, 1, "", 0, Default, Default)
  }

  // ---------------------------------------------------------------- writing

  /** Words with a blank between each two. */
  function Spaced(ws: seq<string>): string
  {
    if ws == [] then "" else if |ws| == 1 then ws[0] else Spaced(ws[..|ws| - 1]) + [BLANK] + ws[|ws| - 1]
  }

  function ArchiveLine(alias: string, c: Conf): string
  {
    var digest := Has(c.mask0, LIST_ARCHIVE_DIGEST);
    Spaced(["archive", alias, c.archDir, c.archSpec, c.farchDir,
            if c.archPass == "" then (if digest then "-" else "") else c.archPass,
            if digest then "digest" else ""])
  }

  function AddressLines(cmd: string, alias: string, text: string): seq<string>
  {
    LinesFor(cmd, alias, Addresses(text))
  }

  function LinesFor(cmd: string, alias: string, xs: seq<string>): seq<string>
  {
    if xs == [] then [] else [Spaced([cmd, alias, xs[0]])] + LinesFor(cmd, alias, xs[1..])
  }

  function DefaultLine(i: nat, value: string): string
    requires i < |OPTIONS|
  {
    "  " + OPTIONS[i] + " = " + value
  }

  function DefaultLines(defaults: seq<string>, i: nat): seq<string>
    requires |defaults| == |OPTIONS| && i <= |OPTIONS|
    decreases |OPTIONS| - i
  {
    if i == |OPTIONS| then []
    else (if defaults[i] == "" then [] else [DefaultLine(i, defaults[i])]) + DefaultLines(defaults, i + 1)
  }

  function CommandLines(cmd: string, alias: string, commands: seq<Command>, bits: set<nat>): seq<string>
  {
    if commands == [] then []
    else (if Masked(commands[0], bits) then [Spaced([cmd, alias, commands[0].name])] else [])
         + CommandLines(cmd, alias, commands[1..], bits)
  }

  /** The program without the directory of the installation, and the slash. */
  function Shortened(dir: string, path: string): string
  {
    if StartsWith(path, dir) then (if |path| > |dir| then path[|dir| + 1..] else "") else path
  }

  function ProgramLine(cmd: string, alias: string, p: Program, dir: string): string
  {
    match p
    case Off => Spaced([cmd, alias, "off"])
    case Default => Spaced([cmd, alias, "default"])
    case Run(ws) => Spaced([cmd, alias, "program"] + if ws == [] then [] else [Shortened(dir, ws[0])] + ws[1..])
  }

  function MtaLine(alias: string, c: Conf): string
  {
    Spaced(["mta_host2", alias, if c.mtaHost != "" then c.mtaHost else "-"] +
        if c.mtaPort != 0 then [DecInt(c.mtaPort)] else [])
  }

  function When(b: bool, l: string): seq<string> { if b then [l] else [] }

  predicate ValidShape(c: Conf) { |c.defaults| == |OPTIONS| && c.setDisable >= 0 }

  /** The lines of the file in their order, group by group. */
  function Group(env: Env, alias: string, c: Conf, now: int, k: nat): seq<string>
    requires ValidShape(c)
  {
    match k
    case 0 => [Spaced(["creation_date", alias, DecInt(if c.created != 0 then c.created else now)])]
    case 1 => [Spaced(["mask", alias, Dec(c.mask0 as nat), Dec(c.mask1 as nat)])]
    case 2 => When(c.setDisable != 0, Spaced(["set-disable", alias, DecInt(c.setDisable)]))
    case 3 => When(Has(c.mask0, LIST_ARCHIVE | LIST_ARCHIVE_DIGEST), ArchiveLine(alias, c))
    case 4 => if Has(c.mask0, LIST_MODERATED) then AddressLines("moderator", alias, c.moderators) else []
    case 5 => AddressLines("subscription_manager", alias, c.managers)
    case 6 => AddressLines("errors-to", alias, c.errorsTo)
    case 7 =>
      if Has(c.mask0, LIST_DEFAULT) then ["default " + alias + " {"] + DefaultLines(c.defaults, 0) + ["}"] else []
    case 8 =>
      When(Has(c.mask0, LIST_DIGESTS),
           Spaced(["digest", alias, DecInt(c.digestTime), DecInt(c.digestLines), DecInt(c.digestBytes)]))
    case 9 => When(Has(c.mask0, LIST_CEILING), Spaced(["ceiling", alias, DecInt(c.ceiling)]))
    case 10 => When(Has(c.mask0, LIST_COMMENT) && c.comment != DEFAULT_COMMENT, "comment " + alias + " " + c.comment)
    case 11 => CommandLines("disable", alias, env.commands, c.disabled)
    case 12 => CommandLines("restrict", alias, env.commands, c.restricted)
    case 13 => When(c.keywords != "", "keywords " + alias + " " + c.keywords)
    case 14 => [Spaced(["passwd", alias, c.password])]
    case 15 => [Spaced(["threads", alias, DecInt(c.threads)])]
    case 16 => When(c.mtaHost != "" || c.mtaPort != 0, MtaLine(alias, c))
    case 17 => [ProgramLine("filter_prog", alias, c.filter, env.dir)]
    case 18 => [ProgramLine("web_archive", alias, c.web, env.dir)]
    case _ => []
  }

  const GROUPS: nat := 19

  /** The first k groups. */
  function Groups(env: Env, alias: string, c: Conf, now: int, k: nat): seq<string>
    requires ValidShape(c) && k <= GROUPS
  {
    if k == 0 then [] else Groups(env, alias, c, now, k - 1) + Group(env, alias, c, now, k - 1)
  }

  function Written(env: Env, alias: string, c: Conf, now: int): seq<string>
    requires ValidShape(c)
  {
    Groups(env, alias, c, now, GROUPS)
  }

  lemma GroupsStep(env: Env, alias: string, c: Conf, now: int, k: nat)
    requires ValidShape(c) && k < GROUPS
    ensures Groups(env, alias, c, now, 0) == []
    ensures Groups(env, alias, c, now, k + 1) == Groups(env, alias, c, now, k) + Group(env, alias, c, now, k)
  {
    hide Group;
  }

  // ---------------------------------------------------------------- reading a line

  /** The first word, and what is behind it. */
  function NextWord(s: string): (r: Option<(string, string)>)
    ensures r.Some? ==> |r.value.1| < |s|
  {
    var t := SkipSpaces(s);
    var n := WordLength(t);
    if n == 0 then None else Some((t[..n], t[n..]))
  }

  function WordsIn(s: string): seq<string>
    decreases |s|
  {
    match NextWord(s)
    case None => []
    case Some((w, rest)) => [w] + WordsIn(rest)
  }

  predicate StartsNumber(w: string)
  {
    w != "" && (IsDigit(w[0]) || ((w[0] == '-' || w[0] == '+') && |w| > 1 && IsDigit(w[1])))
  }

  predicate IsNumber(w: string)
  {
    StartsNumber(w) && forall i :: 1 <= i < |w| ==> IsDigit(w[i])
  }

  /** What "%d %d ..." reads of the words. */
  function NumbersIn(ws: seq<string>): seq<int>
  {
    if ws == [] || !StartsNumber(ws[0]) then []
    else [Atol(ws[0])] + if IsNumber(ws[0]) then NumbersIn(ws[1..]) else []
  }

  function NumberAt(ns: seq<int>, i: nat, was: int): int { if i < |ns| then ns[i] else was }

  function WordAt(ws: seq<string>, i: nat, was: string): string { if i < |ws| then ws[i] else was }

  /** "%s %[^\n]" */
  function TextAfter(args: string): string { SkipSpaces(RestAfter(args)) }

  function ToMask(n: int): bv32
  {
    if 0 <= n < 0x1_0000_0000 then n as bv32 else (n % 0x1_0000_0000) as bv32
  }

  datatype Result = Done(conf: Conf) | Opened(conf: Conf) | Fatal

  function ArchiveRead(c: Conf, ws: seq<string>): Result
  {
    var dir, farch := WordAt(ws, 1, c.archDir), WordAt(ws, 3, c.farchDir);
    var pass, digest := WordAt(ws, 4, ""), WordAt(ws, 5, "");
    if dir == "" || dir[0] != '/' || (farch != "" && farch[0] == '/') then Fatal
    else
      var m := With(c.mask0, LIST_ARCHIVE);
      Done(c.(archDir := dir, archSpec := WordAt(ws, 2, ""),
              farchDir := if farch == "" || farch[0] == '-' then "listproc" else farch,
              archPass := if pass == "-" then "" else pass,
              mask0 := if digest != "" && StartsWith("digests", Locase(digest)) then WithArchiveDigest(m) else m))
  }

  /** The commands that a name may stand for. */
  function Meant(commands: seq<Command>, name: string): seq<Command>
  {
    if commands == [] then []
    else (if StartsWith(commands[0].name, name) then [commands[0]] else []) + Meant(commands[1..], name)
  }

  /** A name may stand for one command at most, and only for one that has a bit. */
  function DisableRead(env: Env, c: Conf, ws: seq<string>): Result
  {
    var meant := Meant(env.commands, Upcase(WordAt(ws, 1, WordAt(ws, 0, ""))));
    if |meant| > 1 || (|meant| == 1 && meant[0].bit.None?) then Fatal
    else Done(c.(disabled := c.disabled + if meant == [] then {} else {meant[0].bit.value}))
  }

  function ThreadsRead(env: Env, c: Conf, ws: seq<string>): Result
  {
    var n := NumberAt(NumbersIn(if ws == [] then [] else ws[1..]), 0, c.threads);
    if n <= 0 then Fatal
    else if n > 1 && n > env.nthreads - 1 then Done(c.(threads := if env.nthreads > 1 then env.nthreads - 1 else 1))
    else Done(c.(threads := n))
  }

  predicate FirstIs(w: string, c: char) { w != "" && w[0] == c }

  /** lpconfig_parse_command_line; None is an error. */
  function ProgramRead(env: Env, text: string): Option<Program>
  {
    var ws := WordsIn(text);
    if ws == [] then None
    else
      var path := if !FirstIs(ws[0], '/') then env.dir + "/" + ws[0] else ws[0];
      if env.executable(path) then Some(Run([path] + ws[1..])) else None
  }

  /** filter_prog ignores an option it does not know, web_archive does not. */
  function ProgramOption(env: Env, was: Program, args: string, strict: bool): Option<Program>
  {
    var rest := RestAfter(args);
    var opt := Locase(WordOf(rest));
    if opt == "" then None
    else if opt == "default" then Some(Default)
    else if opt == "off" then Some(Off)
    else if opt == "program" then ProgramRead(env, RestAfter(rest))
    else if strict then None else Some(was)
  }

  function Unsharped(s: string): string { if s != "" && s[0] == '#' then [BLANK] + s[1..] else s }

  predicate NoList(w: string) { Locase(w) in {"system_wide", "for_list_mail", "for_mail_requests"} }

  /** One line that is not inside a default block. */
  function Directive(env: Env, alias: string, c: Conf, line: string): Result
  {
    var cmd := WordOf(line);
    Act(env, alias, c, cmd, if |line| > |cmd| then line[|cmd| + 1..] else "")
  }

  function Act(env: Env, alias: string, c: Conf, cmd: string, args: string): Result
  {
    var ws := WordsIn(args);
    var name := WordAt(ws, 0, "");
    var ns := NumbersIn(if ws == [] then [] else ws[1..]);
    if cmd == "" || cmd == "restrict" then Done(c)
    else if (cmd == "comment" && Locase(name) == "server") || (cmd == "threads" && NoList(name)) then Done(c)
    else if Upcase(name) != alias then Done(c)
    else if cmd == "creation_date" then Done(c.(created := NumberAt(ns, 0, c.created)))
    else if cmd == "mask" then
      Done(c.(mask0 := if |ns| > 0 then ToMask(ns[0]) else c.mask0,
              mask1 := if |ns| > 1 then ToMask(ns[1]) else c.mask1))
    else if cmd == "set-disable" then Done(c.(setDisable := NumberAt(ns, 0, c.setDisable)))
    else if cmd == "archive" then ArchiveRead(c, ws)
    else if cmd == "moderator" then
      Done(c.(moderators := c.moderators + AddressOf(RestAfter(args)) + [BLANK],
              mask0 := With(c.mask0, LIST_MODERATED)))
    else if cmd == "subscription_manager" then Done(c.(managers := c.managers + AddressOf(RestAfter(args)) + [BLANK]))
    else if cmd == "errors-to" then Done(c.(errorsTo := c.errorsTo + AddressOf(RestAfter(args)) + [BLANK]))
    else if cmd == "default" then (if '{' in args then Opened(c) else Fatal)
    else if cmd == "digest" then
      Done(c.(digestTime := NumberAt(ns, 0, c.digestTime), digestLines := NumberAt(ns, 1, c.digestLines),
              digestBytes := NumberAt(ns, 2, c.digestBytes)))
    else if cmd == "ceiling" then Done(c.(ceiling := NumberAt(ns, 0, c.ceiling), mask0 := With(c.mask0, LIST_CEILING)))
    else if cmd == "comment" then Done(c.(comment := Unsharped(TextAfter(args)), mask0 := With(c.mask0, LIST_COMMENT)))
    else if cmd == "disable" then DisableRead(env, c, ws)
    else if cmd == "keywords" then Done(c.(keywords := if TextAfter(args) == "" then c.keywords else TextAfter(args)))
    else if cmd == "passwd" then Done(c.(password := WordAt(ws, 1, name)))
    else if cmd == "threads" then ThreadsRead(env, c, ws)
    else if cmd == "mta_host2" then
      var host := WordAt(ws, 1, c.mtaHost);
      Done(c.(mtaHost := if host != "" && host[0] == '-' then "" else host,
              mtaPort := NumberAt(NumbersIn(if |ws| > 2 then ws[2..] else []), 0, c.mtaPort)))
    else if cmd == "filter_prog" then
      var p := ProgramOption(env, c.filter, args, false);
      if p.None? then Fatal else Done(c.(filter := p.value))
    else if cmd == "web_archive" then
      var p := ProgramOption(env, c.web, args, true);
      if p.None? then Fatal else Done(c.(web := p.value))
    else Fatal
  }

  // ---------------------------------------------------------------- default blocks

  function OptionNumber(name: string, i: nat): nat
    requires i <= |OPTIONS|
    decreases |OPTIONS| - i
  {
    if i == |OPTIONS| || OPTIONS[i] == name then i else OptionNumber(name, i + 1)
  }

  /** The values of an option, one after another, up to a comment. */
  function ValuesRead(env: Env, i: nat, was: string, ws: seq<string>): Option<string>
    decreases |ws|
  {
    if ws == [] || FirstIs(ws[0], '#') then Some(was)
    else if !env.valid(i, Upcase(ws[0])) then None
    else
      var now := if i == SET_PREFERENCE then was + Upcase(ws[0]) + [BLANK]
                 else if i == SET_PASSWORD then ws[0] else Upcase(ws[0]);
      ValuesRead(env, i, now, ws[1..])
  }

  /** One line inside a default block. */
  function BlockLine(env: Env, c: Conf, line: string): Result
  {
    var name := Upcase(WordOf(line));
    if name == "" || name[0] == '#' then Opened(c)
    else if name == "}" then Done(c)
    else
      var i := OptionNumber(name, 0);
      if i >= |OPTIONS| || i >= |c.defaults| then Fatal
      else
        var v := ValuesRead(env, i, c.defaults[i], WordsIn(RestAfter(RestAfter(line))));
        if v.None? then Fatal
        else Opened(c.(defaults := c.defaults[i := v.value], mask0 := With(c.mask0, LIST_DEFAULT)))
  }

  // ---------------------------------------------------------------- the loop

  /** The reader between two lines of the file: the list, the line continued so
      far, and whether it is in a default block. */
  datatype Reader = Reading(conf: Conf, carry: string, block: bool) | Stopped

  predicate Continues(l: string) { |l| > 1 && l[|l| - 1] == '&' }

  function AfterResult(r: Result): Reader
  {
    match r
    case Done(c) => Reading(c, "", false)
    case Opened(c) => Reading(c, "", true)
    case Fatal => Stopped
  }

  function Next(env: Env, alias: string, r: Reader, l: string): Reader
  {
    if r.Stopped? then r
    else if r.block then AfterResult(BlockLine(env, r.conf, l))
    else if l != "" && l[0] == '#' then AfterResult(Directive(env, alias, r.conf, r.carry))
    else if Continues(l) then r.(carry := r.carry + l[..|l| - 1])
    else AfterResult(Directive(env, alias, r.conf, r.carry + l))
  }

  function ReadOn(env: Env, alias: string, r: Reader, ls: seq<string>): Reader
  {
    if ls == [] then r else Next(env, alias, ReadOn(env, alias, r, ls[..|ls| - 1]), ls[|ls| - 1])
  }

  /** A line that is continued at the end of the file is acted on. */
  function AtEnd(env: Env, alias: string, r: Reader): Reader
  {
    if r.Reading? && !r.block then AfterResult(Directive(env, alias, r.conf, r.carry)) else r
  }

  function ReadAll(env: Env, alias: string, r: Reader, ls: seq<string>): Reader
  {
    AtEnd(env, alias, ReadOn(env, alias, r, ls))
  }

  class ConfigReader {
    const env: Env
    const alias: string
    var reader: Reader

    constructor (env: Env, alias: string, start: Conf)
      ensures this.env == env && this.alias == alias && reader == Reading(start, "", false)
    {
      this.env, this.alias, reader := env, alias, Reading(start, "", false);
    }

    /** The loop of sys_config_aux; it stops at the first error. */
    method ReadFile(ls: seq<string>)
      modifies this
      ensures reader == ReadAll(env, alias, old(reader), ls)
    {
      hide Next, Directive;
      var i := 0;
      assert ls[..0] == [];
      while i < |ls| && reader.Reading?
        invariant 0 <= i <= |ls| && reader == ReadOn(env, alias, old(reader), ls[..i])
      {
        assert ls[..i + 1][..i] == ls[..i];
        reader := Next(env, alias, reader, ls[i]);
        i := i + 1;
      }
      StaysStopped(env, alias, old(reader), ls, i);
      if reader.Reading? && !reader.block {
        reader := AfterResult(Directive(env, alias, reader.conf, reader.carry));
      }
    }
  }

  lemma {:induction false} StaysStopped(env: Env, alias: string, r: Reader, ls: seq<string>, i: nat)
    requires i <= |ls| && (i == |ls| || ReadOn(env, alias, r, ls[..i]).Stopped?)
    ensures ReadOn(env, alias, r, ls) == ReadOn(env, alias, r, ls[..i])
    decreases |ls| - i
  {
    if i == |ls| {
      assert ls[..i] == ls;
    } else {
      assert ls[..i + 1][..i] == ls[..i];
      StaysStopped(env, alias, r, ls, i + 1);
    }
  }

  // ---------------------------------------------------------------- the writer

  method WriteAddresses(cmd: string, alias: string, text: string) returns (ls: seq<string>)
    ensures ls == AddressLines(cmd, alias, text)
  {
    hide NextAddress, Spaced, Addresses, LinesFor;
    ls := [];
    var s, done := text, false;
    while !done
      invariant LinesFor(cmd, alias, Addresses(text)) == ls + if done then [] else LinesFor(cmd, alias, Addresses(s))
      decreases |s|, !done
    {
      AddressesStep(s);
      match NextAddress(s)
      case None =>
        LinesForStep(cmd, alias, "", []);
        done := true;
      case Some((a, rest)) =>
        LinesForStep(cmd, alias, a, Addresses(rest));
        ls := ls + [Spaced([cmd, alias, a])];
        s := rest;
    }
    assert ls + [] == ls;
  }

  lemma LinesForStep(cmd: string, alias: string, a: string, xs: seq<string>)
    ensures LinesFor(cmd, alias, []) == []
    ensures LinesFor(cmd, alias, [a] + xs) == [Spaced([cmd, alias, a])] + LinesFor(cmd, alias, xs)
  {
    hide Spaced;
  }

  method WriteDefaults(defaults: seq<string>) returns (ls: seq<string>)
    requires |defaults| == |OPTIONS|
    ensures ls == DefaultLines(defaults, 0)
  {
    hide DefaultLine, DefaultLines;
    ls := [];
    var i := 0;
    while i < |OPTIONS|
      invariant 0 <= i <= |OPTIONS| && DefaultLines(defaults, 0) == ls + DefaultLines(defaults, i)
    {
      DefaultStep(defaults, i);
      if defaults[i] != "" {
        ls := ls + [DefaultLine(i, defaults[i])];
      }
      i := i + 1;
    }
    DefaultEnd(defaults);
  }

  lemma DefaultStep(defaults: seq<string>, i: nat)
    requires |defaults| == |OPTIONS| && i < |OPTIONS|
    ensures DefaultLines(defaults, i) ==
            (if defaults[i] == "" then [] else [DefaultLine(i, defaults[i])]) + DefaultLines(defaults, i + 1)
  {
    hide DefaultLine;
  }

  lemma DefaultEnd(defaults: seq<string>)
    requires |defaults| == |OPTIONS|
    ensures DefaultLines(defaults, |OPTIONS|) == []
  {
  }

  method WriteCommands(cmd: string, alias: string, commands: seq<Command>, bits: set<nat>) returns (ls: seq<string>)
    ensures ls == CommandLines(cmd, alias, commands, bits)
  {
    hide Spaced;
    ls := [];
    var i := 0;
    assert commands[0..] == commands;
    while i < |commands|
      invariant 0 <= i <= |commands|
      invariant CommandLines(cmd, alias, commands, bits) == ls + CommandLines(cmd, alias, commands[i..], bits)
    {
      assert commands[i..][1..] == commands[i + 1..];
      if Masked(commands[i], bits) {
        ls := ls + [Spaced([cmd, alias, commands[i].name])];
      }
      i := i + 1;
    }
  }

  /** The lines up to the archive */
  method WriteHead(env: Env, alias: string, c: Conf, now: int) returns (ls: seq<string>)
    requires ValidShape(c)
    ensures ls == Groups(env, alias, c, now, 4)
  {
    hide Groups, Spaced, Has, ArchiveLine, When, Dec, DecInt;
    GroupsStep(env, alias, c, now, 0);
    ls := [Spaced(["creation_date", alias, DecInt(if c.created != 0 then c.created else now)])];
    GroupsStep(env, alias, c, now, 1);
    ls := ls + [Spaced(["mask", alias, Dec(c.mask0 as nat), Dec(c.mask1 as nat)])];
    GroupsStep(env, alias, c, now, 2);
    ls := ls + When(c.setDisable != 0, Spaced(["set-disable", alias, DecInt(c.setDisable)]));
    GroupsStep(env, alias, c, now, 3);
    ls := ls + When(Has(c.mask0, LIST_ARCHIVE | LIST_ARCHIVE_DIGEST), ArchiveLine(alias, c));
  }

  /** The addresses */
  method WritePeople(env: Env, alias: string, c: Conf, now: int, head: seq<string>) returns (ls: seq<string>)
    requires ValidShape(c) && head == Groups(env, alias, c, now, 4)
    ensures ls == Groups(env, alias, c, now, 7)
  {
    hide Groups, Has, AddressLines;
    ls := head;
    GroupsStep(env, alias, c, now, 4);
    var more: seq<string> := [];
    if Has(c.mask0, LIST_MODERATED) {
      more := WriteAddresses("moderator", alias, c.moderators);
    }
    ls := ls + more;
    GroupsStep(env, alias, c, now, 5);
    more := WriteAddresses("subscription_manager", alias, c.managers);
    ls := ls + more;
    GroupsStep(env, alias, c, now, 6);
    more := WriteAddresses("errors-to", alias, c.errorsTo);
    ls := ls + more;
  }

  /** The lines from the default block to the comment */
  method WriteMiddle(env: Env, alias: string, c: Conf, now: int, head: seq<string>) returns (ls: seq<string>)
    requires ValidShape(c) && head == Groups(env, alias, c, now, 7)
    ensures ls == Groups(env, alias, c, now, 11)
  {
    hide Groups, Spaced, Has, DefaultLines, When;
    ls := head;
    GroupsStep(env, alias, c, now, 7);
    var more: seq<string> := [];
    if Has(c.mask0, LIST_DEFAULT) {
      more := WriteDefaults(c.defaults);
      more := ["default " + alias + " {"] + more + ["}"];
    }
    ls := ls + more;
    GroupsStep(env, alias, c, now, 8);
    ls := ls + When(Has(c.mask0, LIST_DIGESTS),
                    Spaced(["digest", alias, DecInt(c.digestTime), DecInt(c.digestLines), DecInt(c.digestBytes)]));
    GroupsStep(env, alias, c, now, 9);
    ls := ls + When(Has(c.mask0, LIST_CEILING), Spaced(["ceiling", alias, DecInt(c.ceiling)]));
    GroupsStep(env, alias, c, now, 10);
    ls := ls + When(Has(c.mask0, LIST_COMMENT) && c.comment != DEFAULT_COMMENT, "comment " + alias + " " + c.comment);
  }

  /** The end of configuration() */
  method WriteConfig(env: Env, alias: string, c: Conf, now: int) returns (ls: seq<string>)
    requires ValidShape(c)
    ensures ls == Written(env, alias, c, now)
  {
    hide Groups, Spaced, MtaLine, ProgramLine, When, CommandLines, DecInt;
    ls := WriteHead(env, alias, c, now);
    ls := WritePeople(env, alias, c, now, ls);
    ls := WriteMiddle(env, alias, c, now, ls);
    GroupsStep(env, alias, c, now, 11);
    var more := WriteCommands("disable", alias, env.commands, c.disabled);
    ls := ls + more;
    GroupsStep(env, alias, c, now, 12);
    more := WriteCommands("restrict", alias, env.commands, c.restricted);
    ls := ls + more;
    GroupsStep(env, alias, c, now, 13);
    ls := ls + When(c.keywords != "", "keywords " + alias + " " + c.keywords);
    GroupsStep(env, alias, c, now, 14);
    ls := ls + [Spaced(["passwd", alias, c.password])];
    GroupsStep(env, alias, c, now, 15);
    ls := ls + [Spaced(["threads", alias, DecInt(c.threads)])];
    GroupsStep(env, alias, c, now, 16);
    ls := ls + When(c.mtaHost != "" || c.mtaPort != 0, MtaLine(alias, c));
    GroupsStep(env, alias, c, now, 17);
    ls := ls + [ProgramLine("filter_prog", alias, c.filter, env.dir)];
    GroupsStep(env, alias, c, now, 18);
    ls := ls + [ProgramLine("web_archive", alias, c.web, env.dir)];
  }
}
