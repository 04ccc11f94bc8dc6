/** The files of a list that its owners edit, hold and lock: EDIT
    (commands/edit.c), PUT (commands/put.c), HOLD, FREE, LOCK and UNLOCK
    (commands/hold_free.c). */
module ListFiles {
  import opened Text
  import opened TextFiles
  import opened AddressText

  datatype SysFile = Welcome | Info | Aliases | Ignored | Subscribers | News | Peers

  datatype Config = Config(manager: string, owners: set<string>, subscrManagers: set<string>,
                           listPassword: string, serverPassword: string, readOnly: bool, relaxed: bool, hasLimit: bool)

  /** A stamp, the edit lock, the hold and the lock are there or not; the lock
      files hold a name. */
  datatype ListState = ListState(text: map<SysFile, seq<string>>, mtime: map<SysFile, nat>,
                                 stamp: map<SysFile, nat>, editLock: Option<string>,
                                 hold: Option<string>, lock: Option<string>, limits: string)

  ghost predicate Total(s: ListState) { forall f: SysFile :: f in s.text && f in s.mtime }

  // ---------------------------------------------------------------- keywords

  /** strncasecmp(keyword, name, strlen(keyword)) == 0 */
  predicate Abbreviates(keyword: string, name: string)
  {
    StartsWith(Locase(name), Locase(keyword))
  }

  function EditFile(keyword: string): Option<SysFile>
  {
    if Abbreviates(keyword, "aliases") then Some(Aliases)
    else if Abbreviates(keyword, "ignored") then Some(Ignored)
    else if Abbreviates(keyword, "info") then Some(Info)
    else if Abbreviates(keyword, "subscribers") then Some(Subscribers)
    else if Abbreviates(keyword, "welcome") then Some(Welcome)
    else if Abbreviates(keyword, "news") then Some(News)
    else if Abbreviates(keyword, "peers") then Some(Peers)
    else None
  }

  function PutFile(keyword: string): Option<SysFile>
  {
    if Abbreviates(keyword, "welcome") then Some(Welcome)
    else if Abbreviates(keyword, "info") then Some(Info)
    else if Abbreviates(keyword, "aliases") then Some(Aliases)
    else if Abbreviates(keyword, "ignored") then Some(Ignored)
    else if Abbreviates(keyword, "subscribers") then Some(Subscribers)
    else if Abbreviates(keyword, "news") then Some(News)
    else if Abbreviates(keyword, "peers") then Some(Peers)
    else None
  }

  // ---------------------------------------------------------------- what EDIT does

  predicate Authorized(c: Config, sender: string, password: string, subscr: bool)
  {
    && (sender == c.manager || sender in c.owners || subscr)
    && password != ""
    && password == if sender == c.manager then c.serverPassword else c.listPassword
  }

  predicate MayEdit(c: Config, sender: string, password: string, file: string)
  {
    Authorized(c, sender, password,
               sender in c.subscrManagers && (Abbreviates(file, "aliases") || Abbreviates(file, "subscribers")))
  }

  datatype EditAnswer = Refused | Sent(file: SysFile, lines: seq<string>, locked: bool)

  function EditReply(c: Config, s: ListState, sender: string, password: string, file: string, extra: string): EditAnswer
    requires Total(s)
  {
    if !MayEdit(c, sender, password, file) || !Abbreviates(extra, "-nolock") || file == "" || EditFile(file).None?
    then Refused
    else Sent(EditFile(file).value, s.text[EditFile(file).value],
              extra == "" && (sender == c.manager || !c.readOnly))
  }

  /** A locking EDIT stamps the file it sends and takes the edit lock. */
  function AfterEdit(s: ListState, sender: string, a: EditAnswer): ListState
    requires Total(s)
  {
    if a.Sent? && a.locked then s.(stamp := s.stamp[a.file := s.mtime[a.file]], editLock := Some(sender)) else s
  }

  // ---------------------------------------------------------------- what PUT does

  predicate Modified(s: ListState, f: SysFile)
    requires Total(s)
  {
    f in s.stamp && s.mtime[f] != s.stamp[f]
  }

  /** A written file loses its stamp; the edit lock goes with the last stamp. */
  function Write(s: ListState, f: SysFile, lines: seq<string>, now: nat): ListState
  {
    var stamp := map g | g in s.stamp && g != f :: s.stamp[g];
    s.(text := s.text[f := lines], mtime := s.mtime[f := now], stamp := stamp,
       editLock := if stamp == map[] then None else s.editLock)
  }

  predicate MayPut(c: Config, sender: string, password: string, keyword: string)
  {
    Authorized(c, sender, password,
               sender in c.subscrManagers && (Abbreviates(keyword, "alias") || Abbreviates(keyword, "subscribers")))
  }

  datatype PutArgs = PutArgs(keyword: string, arg1: string, arg2: string, arg3: string)

  /** The file a PUT is for, and whether a line is added to it rather than the
      message put in its place. */
  function Target(c: Config, sender: string, a: PutArgs): Option<(SysFile, bool)>
  {
    if SameNoCase(a.keyword, "alias") then
      if a.arg1 == "" || a.arg2 == "" || a.arg3 != "" then None else Some((Aliases, true))
    else if SameNoCase(a.keyword, "ignore") then
      if a.arg1 == "" || a.arg2 != "" then None else Some((Ignored, true))
    else if a.keyword == "" || PutFile(a.keyword).None? || (a.arg1 != "" && !c.relaxed) then None
    else if PutFile(a.keyword) == Some(Subscribers) && sender != c.manager && c.readOnly then None
    else Some((PutFile(a.keyword).value, false))
  }

  function AddedLine(a: PutArgs): string
  {
    if SameNoCase(a.keyword, "alias") then a.arg1 + [BLANK] + a.arg2 else a.arg1
  }

  datatype PutAnswer = Rejected | Stale(file: SysFile, forced: EditAnswer) | Stored(file: SysFile)

  /** copy_message_body: the lines in front of the signature. */
  function BodyLines(from: seq<string>, sign: string): seq<string>
  {
    if from == [] || from[0] == sign then [] else [from[0]] + BodyLines(from[1..], sign)
  }

  function PutReply(c: Config, s: ListState, sender: string, password: string, a: PutArgs, interactive: bool): PutAnswer
    requires Total(s)
  {
    var target := Target(c, sender, a);
    if !MayPut(c, sender, password, a.keyword) || target.None? then Rejected
    else
      var (f, add) := target.value;
      if !Modified(s, f) then Stored(f)
      else if add || interactive then Stale(f, Refused)
      else Stale(f, EditReply(c, s, sender, password, a.keyword, a.arg1))
  }

  function AfterPut(c: Config, s: ListState, sender: string, a: PutArgs, body: seq<string>, now: nat,
                    r: PutAnswer): ListState
    requires Total(s)
  {
    match r
    case Rejected => s
    case Stale(_, forced) => AfterEdit(s, sender, forced)
    case Stored(f) =>
      var add := SameNoCase(a.keyword, "alias") || SameNoCase(a.keyword, "ignore");
      Write(s, f, if add then s.text[f] + [AddedLine(a)] else body, now)
  }

  // ---------------------------------------------------------------- what HOLD, FREE, LOCK and UNLOCK do

  /** A request is told by its first three letters; any other counts as a kind of
      UNLOCK. */
  datatype Kind = Hold | Free | Lock | Unlock | Other

  function KindOf(request: string): Kind
  {
    if StartsWith(request, "HOL") then Hold
    else if StartsWith(request, "FRE") then Free
    else if StartsWith(request, "LOC") then Lock
    else if StartsWith(request, "UNL") then Unlock
    else Other
  }

  function Who(name: string): string { WordOf(name + [LF]) }

  /** Who holds, or locks, the list afterwards. */
  function Holder(kind: Kind, manager: bool, sender: string, cur: Option<string>): Option<string>
  {
    if kind in {Hold, Lock} then
      if manager then Some("manager") else if cur.Some? then cur else Some(sender)
    else if manager || cur.None? then None
    else if (if kind == Unlock then Who(cur.value) == sender else Who(cur.value) != "manager") then None
    else cur
  }

  function AfterHold(c: Config, s: ListState, sender: string, password: string, request: string,
                     date: string): ListState
  {
    var kind, manager := KindOf(request), sender == c.manager;
    if !Authorized(c, sender, password, false) then s
    else
      var cur := if kind in {Hold, Free} then s.hold else s.lock;
      var next := Holder(kind, manager, sender, cur);
      var s1 := if kind in {Hold, Free} then s.(hold := next) else s.(lock := next);
      var s2 := if kind == Unlock && next.None? && s.editLock.Some? then s1.(editLock := None, stamp := map[]) else s1;
      if c.hasLimit && next.None? && (kind == Free || (kind == Other && !manager && cur.Some?))
      then s2.(limits := "0 " + date) else s2
  }

  // ---------------------------------------------------------------- the requests

  class ListDir {
    var text: map<SysFile, seq<string>>
    var mtime: map<SysFile, nat>
    var stamp: map<SysFile, nat>
    var editLock: Option<string>
    var hold: Option<string>
    var lock: Option<string>
    var limits: string

    ghost function View(): ListState
      reads this
    {
      ListState(text, mtime, stamp, editLock, hold, lock, limits)
    }

    constructor (text: map<SysFile, seq<string>>, mtime: map<SysFile, nat>)
      ensures View() == ListState(text, mtime, map[], None, None, None, "")
    {
      this.text, this.mtime, stamp := text, mtime, map[];
      editLock, hold, lock, limits := None, None, None, "";
    }

    /** PUT_TIMESTAMP and LOCK_EDIT, unless only browsing */
    method SendFile(f: SysFile, nolock: bool, sender: string) returns (a: EditAnswer)
      requires Total(View())
      modifies this
      ensures a == Sent(f, old(text)[f], !nolock)
      ensures View() == AfterEdit(old(View()), sender, a)
    {
      a := Sent(f, text[f], !nolock);
      if !nolock {
        stamp := stamp[f := mtime[f]];
        editLock := Some(sender);
      }
    }

    /** the EDIT part of get_sys_files */
    method Edit(c: Config, sender: string, password: string, file: string, extra: string) returns (a: EditAnswer)
      requires Total(View())
      modifies this
      ensures a == EditReply(c, old(View()), sender, password, file, extra)
      ensures View() == AfterEdit(old(View()), sender, a)
    {
      hide Abbreviates;
      var isManager, isOwner := sender == c.manager, sender in c.owners;
      var isSubscrMgr := sender in c.subscrManagers &&
          (Abbreviates(file, "aliases") || Abbreviates(file, "subscribers"));
      if !isManager && !isOwner && !isSubscrMgr {
        return Refused;
      }
      if password == "" {
        return Refused;
      }
      if ((isOwner || isSubscrMgr) && !isManager && password != c.listPassword) ||
          (isManager && password != c.serverPassword) {
        return Refused;
      }
      var nolock := false;
      if extra != "" {
        if !Abbreviates(extra, "-nolock") {
          return Refused;
        }
        nolock := true;
      }
      EmptyAbbreviates("-nolock");
      if !isManager && c.readOnly {
        nolock := true;
      }
      if file == "" {
        a := Refused;
      } else if Abbreviates(file, "aliases") {
        a := SendFile(Aliases, nolock, sender);
      } else if Abbreviates(file, "ignored") {
        a := SendFile(Ignored, nolock, sender);
      } else if Abbreviates(file, "info") {
        a := SendFile(Info, nolock, sender);
      } else if Abbreviates(file, "subscribers") {
        a := SendFile(Subscribers, nolock, sender);
      } else if Abbreviates(file, "welcome") {
        a := SendFile(Welcome, nolock, sender);
      } else if Abbreviates(file, "news") {
        a := SendFile(News, nolock, sender);
      } else if Abbreviates(file, "peers") {
        a := SendFile(Peers, nolock, sender);
      } else {
        a := Refused;
      }
    }

    /** UNLOCK_EDIT */
    method UnlockEdit()
      modifies this`editLock
      ensures editLock == if stamp == map[] then None else old(editLock)
    {
      if Welcome !in stamp && Info !in stamp && Aliases !in stamp && Ignored !in stamp &&
         Subscribers !in stamp && News !in stamp && Peers !in stamp {
        forall f: SysFile ensures f !in stamp { EveryFile(f); }
        editLock := None;
      }
    }

    method FileModified(f: SysFile) returns (b: bool)
      requires Total(View())
      ensures b == Modified(View(), f)
    {
      b := false;
      if f in stamp {
        b := mtime[f] != stamp[f];
      }
    }

    /** Unlink the stamp, drop the edit lock if it was the last, and write the file. */
    method Overwrite(f: SysFile, lines: seq<string>, now: nat)
      modifies this
      ensures View() == Write(old(View()), f, lines, now)
    {
      stamp := map g | g in stamp && g != f :: stamp[g];
      UnlockEdit();
      text := text[f := lines];
      mtime := mtime[f := now];
    }

    method CopyMessageBody(from: seq<string>, sign: string) returns (to: seq<string>)
      ensures to == BodyLines(from, sign)
    {
      to := [];
      var i, signature := 0, false;
      assert from[0..] == from;
      while i < |from|
        invariant 0 <= i <= |from|
        invariant BodyLines(from, sign) == to + if signature then [] else BodyLines(from[i..], sign)
      {
        BodyStep(from, sign, i);
        if from[i] == sign {
          signature := true;
        } else if !signature {
          to := to + [from[i]];
        }
        i := i + 1;
      }
    }

    /** put_file */
    method PutOver(c: Config, f: SysFile, sender: string, password: string, a: PutArgs, body: seq<string>,
                   interactive: bool, now: nat) returns (r: PutAnswer)
      requires Total(View())
      modifies this
      ensures var s := old(View());
              if Modified(s, f) then
                r == Stale(f, if interactive then Refused else EditReply(c, s, sender, password, a.keyword, a.arg1))
                && View() == AfterEdit(s, sender, r.forced)
              else r == Stored(f) && View() == Write(s, f, body, now)
    {
      var stale := FileModified(f);
      if stale {
        var forced := Refused;
        if !interactive {
          forced := Edit(c, sender, password, a.keyword, a.arg1);
        }
        return Stale(f, forced);
      }
      Overwrite(f, body, now);
      r := Stored(f);
    }

    /** The ALIAS and IGNORE branches of put */
    method Add(f: SysFile, line: string, now: nat) returns (r: PutAnswer)
      requires Total(View())
      modifies this
      ensures var s := old(View());
              if Modified(s, f) then r == Stale(f, Refused) && View() == s
              else r == Stored(f) && View() == Write(s, f, s.text[f] + [line], now)
    {
      var stale := FileModified(f);
      if stale {
        return Stale(f, Refused);
      }
      Overwrite(f, text[f] + [line], now);
      r := Stored(f);
    }

    /** The file keywords of put */
    method PutKeyword(c: Config, sender: string, password: string, a: PutArgs, body: seq<string>,
                      interactive: bool, now: nat) returns (r: PutAnswer)
      requires Total(View()) && PutFile(a.keyword).Some? && MayPut(c, sender, password, a.keyword)
      requires a.keyword != "" && !SameNoCase(a.keyword, "alias") && !SameNoCase(a.keyword, "ignore")
      requires a.arg1 == "" || c.relaxed
      modifies this
      ensures r == PutReply(c, old(View()), sender, password, a, interactive)
      ensures View() == AfterPut(c, old(View()), sender, a, body, now, r)
    {
      hide Abbreviates, SameNoCase, EditReply, AfterEdit, Write;
      var f := Peers;
      if Abbreviates(a.keyword, "welcome") {
        f := Welcome;
      } else if Abbreviates(a.keyword, "info") {
        f := Info;
      } else if Abbreviates(a.keyword, "aliases") {
        f := Aliases;
      } else if Abbreviates(a.keyword, "ignored") {
        f := Ignored;
      } else if Abbreviates(a.keyword, "subscribers") {
        if sender != c.manager && c.readOnly {
          return Rejected;
        }
        f := Subscribers;
      } else if Abbreviates(a.keyword, "news") {
        f := News;
      }
      r := PutOver(c, f, sender, password, a, body, interactive, now);
    }

    /** put; the message is the lines of the body in front of the signature */
    method Put(c: Config, sender: string, password: string, a: PutArgs, message: seq<string>, sign: string,
               interactive: bool, now: nat) returns (r: PutAnswer)
      requires Total(View())
      modifies this
      ensures r == PutReply(c, old(View()), sender, password, a, interactive)
      ensures View() == AfterPut(c, old(View()), sender, a, BodyLines(message, sign), now, r)
    {
      hide Abbreviates, SameNoCase, EditReply, Write, BodyLines;
      var isManager, isOwner := sender == c.manager, sender in c.owners;
      var isSubscrMgr := sender in c.subscrManagers &&
          (Abbreviates(a.keyword, "alias") || Abbreviates(a.keyword, "subscribers"));
      if !isManager && !isOwner && !isSubscrMgr {
        return Rejected;
      }
      if password == "" {
        return Rejected;
      }
      if ((isOwner || isSubscrMgr) && !isManager && password != c.listPassword) ||
          (isManager && password != c.serverPassword) {
        return Rejected;
      }
      var body := CopyMessageBody(message, sign);
      if SameNoCase(a.keyword, "alias") {
        if a.arg1 == "" || a.arg2 == "" || a.arg3 != "" {
          return Rejected;
        }
        r := Add(Aliases, a.arg1 + [BLANK] + a.arg2, now);
      } else if SameNoCase(a.keyword, "ignore") {
        if a.arg1 == "" || a.arg2 != "" {
          return Rejected;
        }
        r := Add(Ignored, a.arg1, now);
      } else if a.keyword != "" && (Abbreviates(a.keyword, "welcome") || Abbreviates(a.keyword, "info") ||
                                    Abbreviates(a.keyword, "aliases") || Abbreviates(a.keyword, "ignored") ||
                                    Abbreviates(a.keyword, "subscribers") || Abbreviates(a.keyword, "news") ||
                                    Abbreviates(a.keyword, "peers")) {
        if a.arg1 != "" && !c.relaxed {
          return Rejected;
        }
        r := PutKeyword(c, sender, password, a, body, interactive, now);
      } else {
        r := Rejected;
      }
    }

    /** add_to_list_aliases */
    method AddToListAliases(from: string, to: string, now: nat) returns (ok: bool)
      requires Total(View())
      modifies this
      ensures ok <==> Aliases !in old(stamp)
      ensures View() == AfterAlias(old(View()), from, to, now)
    {
      if Aliases in stamp {
        return false;
      }
      text := text[Aliases := text[Aliases] + [from + [BLANK] + to]];
      mtime := mtime[Aliases := now];
      ok := true;
    }

    method RemoveEditLock()
      modifies this`editLock, this`stamp
      ensures editLock == None && stamp == if old(editLock).Some? then map[] else old(stamp)
    {
      if editLock.Some? {
        editLock := None;
        stamp := map f | f in stamp && f !in {Aliases, Ignored, Info, Subscribers, Welcome, News, Peers} :: stamp[f];
        forall f: SysFile ensures f !in stamp { EveryFile(f); }
      }
    }

    /** hold_free */
    method HoldFree(c: Config, sender: string, password: string, request: string, date: string)
      modifies this
      ensures View() == AfterHold(c, old(View()), sender, password, request, date)
    {
      hide StartsWith;
      KindsDiffer(request);
      var isManager, isOwner := sender == c.manager, sender in c.owners;
      if password == "" {
        return;
      }
      if (isOwner && !isManager && password != c.listPassword) || (isManager && password != c.serverPassword) {
        return;
      }
      var holds, locking := false, false;
      if StartsWith(request, "HOL") {
        holds, locking := true, true;
      } else if StartsWith(request, "FRE") {
        holds, locking := true, false;
      } else if StartsWith(request, "LOC") {
        holds, locking := false, true;
      }
      var file := if holds then hold else lock;
      if locking {
        if isManager {
          SetHolder(holds, Some("manager"));
        } else if !isOwner {
          return;
        } else if file.None? {
          SetHolder(holds, Some(sender));
        }
      } else {
        if isManager {
          SetHolder(holds, None);
          if StartsWith(request, "FRE") && c.hasLimit {
            limits := "0 " + date;
          }
          if StartsWith(request, "UNL") {
            RemoveEditLock();
          }
        } else if !isOwner {
          return;
        } else if file.Some? {
          var who := Who(file.value);
          if StartsWith(request, "UNL") {
            if sender == who {
              SetHolder(holds, None);
              RemoveEditLock();
            }
          } else if who != "manager" {
            SetHolder(holds, None);
            if c.hasLimit {
              limits := "0 " + date;
            }
          }
        } else if StartsWith(request, "FRE") && c.hasLimit {
          limits := "0 " + date;
        } else if StartsWith(request, "UNL") {
          RemoveEditLock();
        }
      }
    }

    method SetHolder(holds: bool, name: Option<string>)
      modifies this`hold, this`lock
      ensures hold == (if holds then name else old(hold)) && lock == (if holds then old(lock) else name)
    {
      if holds {
        hold := name;
      } else {
        lock := name;
      }
    }
  }

  /** add_to_list_aliases does nothing while the aliases are being edited. */
  function AfterAlias(s: ListState, from: string, to: string, now: nat): ListState
    requires Total(s)
  {
    if Aliases in s.stamp then s
    else s.(text := s.text[Aliases := s.text[Aliases] + [from + [BLANK] + to]], mtime := s.mtime[Aliases := now])
  }

  lemma BodyStep(from: seq<string>, sign: string, i: nat)
    requires i < |from|
    ensures BodyLines(from[i..], sign) ==
            if from[i] == sign then [] else [from[i]] + BodyLines(from[i + 1..], sign)
  {
    assert from[i..][1..] == from[i + 1..];
  }

  lemma EveryFile(f: SysFile)
    ensures f in {Welcome, Info, Aliases, Ignored, Subscribers, News, Peers}
  {
  }

  lemma KindsDiffer(request: string)
    ensures !(StartsWith(request, "FRE") && StartsWith(request, "UNL"))
  {
    if StartsWith(request, "FRE") {
      assert request[..3][0] == 'F';
    }
    if StartsWith(request, "UNL") {
      assert request[..3][0] == 'U';
    }
  }

  lemma EmptyAbbreviates(name: string)
    ensures Abbreviates("", name)
  {
  }
}
