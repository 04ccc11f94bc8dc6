/** What one request does to the files of a list: which file a keyword means, what a
    PUT leaves in it, what an EDIT sends, who is held or locked afterwards. */
module ListEffects {
  import opened Text
  import opened AddressText
  import opened ListFiles
  import opened ListLaws

  // ---------------------------------------------------------------- keywords

  function FileName(f: SysFile): string
  {
    match f
    case Welcome => "welcome"
    case Info => "info"
    case Aliases => "aliases"
    case Ignored => "ignored"
    case Subscribers => "subscribers"
    case News => "news"
    case Peers => "peers"
  }

  /** The first letters of a name, in any case. */
  predicate ShortFor(k: string, name: string)
  {
    |k| <= |name| && forall i :: 0 <= i < |k| ==> Lower(k[i]) == Lower(name[i])
  }

  lemma AbbreviatesIff(k: string, name: string)
    ensures Abbreviates(k, name) <==> ShortFor(k, name)
  {
    var a, b := Locase(k), Locase(name);
    if Abbreviates(k, name) {
      forall i | 0 <= i < |k| ensures Lower(k[i]) == Lower(name[i]) {
        assert a[i] == b[..|a|][i];
      }
    }
    if ShortFor(k, name) {
      assert b[..|a|] == a;
    }
  }

  lemma FirstLetters(k: string, f: SysFile)
    requires k != "" && ShortFor(k, FileName(f))
    ensures Lower(k[0]) == FileName(f)[0] && (|k| > 1 ==> Lower(k[1]) == FileName(f)[1])
  {
    assert Lower(FileName(f)[0]) == FileName(f)[0] && Lower(FileName(f)[1]) == FileName(f)[1];
  }

  lemma TwoFiles(k: string, f: SysFile, g: SysFile)
    requires k != "" && ShortFor(k, FileName(f)) && ShortFor(k, FileName(g)) && f != g
    ensures |k| == 1 && Locase(k) == "i" && {f, g} == {Info, Ignored}
  {
    hide ShortFor;
    FirstLetters(k, f);
    FirstLetters(k, g);
    if |k| == 1 {
      assert Locase(k)[0] == Lower(k[0]);
    }
  }

  lemma LetterI(k: string)
    requires Locase(k) == "i"
    ensures ShortFor(k, "info") && ShortFor(k, "ignored")
  {
    assert Locase(k)[0] == Lower(k[0]);
  }

  /** A keyword means the file it is short for; "i", which is short for two, means
      the ignored users to EDIT and the information to PUT. */
  lemma KeywordMeans(k: string, f: SysFile)
    requires k != ""
    ensures EditFile(k) == Some(f) <==> ShortFor(k, FileName(f)) && !(Locase(k) == "i" && f == Info)
    ensures PutFile(k) == Some(f) <==> ShortFor(k, FileName(f)) && !(Locase(k) == "i" && f == Ignored)
  {
    hide Abbreviates, ShortFor;
    forall g: SysFile ensures Abbreviates(k, FileName(g)) <==> ShortFor(k, FileName(g)) {
      AbbreviatesIff(k, FileName(g));
    }
    forall g: SysFile | g != f && ShortFor(k, FileName(f)) && ShortFor(k, FileName(g))
      ensures Locase(k) == "i" && {f, g} == {Info, Ignored}
    {
      TwoFiles(k, f, g);
    }
    if Locase(k) == "i" {
      LetterI(k);
    }
    assert FileName(Welcome) == "welcome" && FileName(Info) == "info" && FileName(Aliases) == "aliases";
    assert FileName(Ignored) == "ignored" && FileName(Subscribers) == "subscribers";
    assert FileName(News) == "news" && FileName(Peers) == "peers";
  }

  // ---------------------------------------------------------------- who may ask

  predicate AsOwner(c: Config, sender: string, password: string)
  {
    sender in c.owners && sender != c.manager && password == c.listPassword != ""
  }

  predicate AsManager(c: Config, sender: string, password: string)
  {
    sender == c.manager && password == c.serverPassword != ""
  }

  /** A manager of subscriptions is served for two files. */
  predicate AsSubscrManager(c: Config, sender: string, password: string, keyword: string, aliases: string)
  {
    && sender in c.subscrManagers && sender != c.manager && password == c.listPassword != ""
    && (ShortFor(keyword, aliases) || ShortFor(keyword, "subscribers"))
  }

  /** The manager himself needs the server's password, whatever else he is. */
  predicate Served(c: Config, sender: string, password: string, keyword: string, aliases: string)
  {
    || AsManager(c, sender, password) || AsOwner(c, sender, password)
    || AsSubscrManager(c, sender, password, keyword, aliases)
  }

  lemma MayIff(c: Config, sender: string, password: string, keyword: string)
    ensures MayEdit(c, sender, password, keyword) <==> Served(c, sender, password, keyword, "aliases")
    ensures MayPut(c, sender, password, keyword) <==> Served(c, sender, password, keyword, "alias")
    ensures Authorized(c, sender, password, false) <==> AsManager(c, sender, password) || AsOwner(c, sender, password)
  {
    hide Abbreviates, ShortFor;
    AbbreviatesIff(keyword, "aliases");
    AbbreviatesIff(keyword, "alias");
    AbbreviatesIff(keyword, "subscribers");
  }

  // ---------------------------------------------------------------- PUT

  /** The message in front of its signature, which is its first line that reads so. */
  lemma {:induction false} BodyIs(message: seq<string>, sign: string, k: nat)
    requires k <= |message| && sign !in message[..k] && (k < |message| ==> message[k] == sign)
    ensures BodyLines(message, sign) == message[..k]
  {
    if k > 0 {
      assert message[0] == message[..k][0];
      assert message[1..][..k - 1] == message[..k][1..];
      BodyIs(message[1..], sign, k - 1);
    }
  }

  /** The stamp on a file is not that of its text. */
  predicate Outdated(s: ListState, f: SysFile)
    requires Total(s)
  {
    f in s.stamp && s.stamp[f] != s.mtime[f]
  }

  /** The file has these lines now, and has lost its stamp; the edit lock goes with
      the last stamp, and nothing else changes. */
  ghost predicate Written(s: ListState, s': ListState, f: SysFile, lines: seq<string>, now: nat)
    requires Total(s) && Total(s')
  {
    && (forall g :: s'.text[g] == if g == f then lines else s.text[g])
    && (forall g :: s'.mtime[g] == if g == f then now else s.mtime[g])
    && (forall g :: g in s'.stamp <==> g in s.stamp && g != f)
    && (forall g :: g in s'.stamp ==> s'.stamp[g] == s.stamp[g])
    && s'.editLock == (if exists g :: g in s.stamp && g != f then s.editLock else None)
    && s'.hold == s.hold && s'.lock == s.lock && s'.limits == s.limits
  }

  lemma WriteWrites(s: ListState, f: SysFile, lines: seq<string>, now: nat)
    requires Total(s)
    ensures var s' := Write(s, f, lines, now); Total(s') && Written(s, s', f, lines, now)
  {
    var s' := Write(s, f, lines, now);
    if g :| g in s.stamp && g != f {
      assert g in s'.stamp;
    }
    if s'.stamp != map[] {
      var g :| g in s'.stamp;
      assert g in s.stamp && g != f;
    }
  }

  /** A PUT of a file that is served leaves in it the message in front of the
      signature, unless the file was written since it was stamped; then no text
      changes. */
  lemma PutReplaces(c: Config, s: ListState, e: Event, f: SysFile, k: nat)
    requires Total(s) && e.PutReq? && Served(c, e.sender, e.password, e.args.keyword, "alias")
    requires var kw := e.args.keyword;
             && kw != "" && ShortFor(kw, FileName(f)) && !(Locase(kw) == "i" && f == Ignored)
             && Locase(kw) !in {"alias", "ignore"}
    requires (e.args.arg1 == "" || c.relaxed) && (f == Subscribers && c.readOnly ==> e.sender == c.manager)
    requires k <= |e.message| && e.sign !in e.message[..k] && (k < |e.message| ==> e.message[k] == e.sign)
    ensures var s' := Next(c, s, e);
            if Outdated(s, f) then s'.text == s.text && s'.mtime == s.mtime
            else Written(s, s', f, e.message[..k], e.now)
  {
    hide Abbreviates, ShortFor, EditReply, Write, Served, MayPut, BodyLines, Written;
    var kw := e.args.keyword;
    KeywordMeans(kw, f);
    MayIff(c, e.sender, e.password, kw);
    BodyIs(e.message, e.sign, k);
    WriteWrites(s, f, e.message[..k], e.now);
    assert Locase("alias") == "alias" && Locase("ignore") == "ignore";
  }

  /** An outdated PUT by mail is answered by an EDIT of the same keyword; an interactive
      one changes nothing at all. */
  lemma PutIsOutdated(c: Config, s: ListState, e: Event, f: SysFile)
    requires Total(s) && e.PutReq? && Served(c, e.sender, e.password, e.args.keyword, "alias") && Outdated(s, f)
    requires var kw := e.args.keyword;
             && kw != "" && ShortFor(kw, FileName(f)) && !(Locase(kw) == "i" && f == Ignored)
             && Locase(kw) !in {"alias", "ignore"}
    requires (e.args.arg1 == "" || c.relaxed) && (f == Subscribers && c.readOnly ==> e.sender == c.manager)
    ensures Next(c, s, e) ==
            if e.interactive then s else Next(c, s, EditReq(e.sender, e.password, e.args.keyword, e.args.arg1))
  {
    hide Abbreviates, ShortFor, EditReply, Write, Served, MayPut, BodyLines;
    KeywordMeans(e.args.keyword, f);
    MayIff(c, e.sender, e.password, e.args.keyword);
    assert Locase("alias") == "alias" && Locase("ignore") == "ignore";
  }

  /** No name of a file starts like this. */
  predicate NamesNone(k: string) { k == "" || forall f: SysFile :: !ShortFor(k, FileName(f)) }

  lemma NoneMeant(k: string)
    requires NamesNone(k)
    ensures k == "" || (EditFile(k) == None && PutFile(k) == None)
  {
    hide Abbreviates, ShortFor;
    if k != "" {
      forall f: SysFile ensures EditFile(k) != Some(f) && PutFile(k) != Some(f) {
        KeywordMeans(k, f);
      }
    }
  }

  /** A PUT with the wrong number of arguments, of no file, or of a file that is
      read-only changes nothing. */
  lemma PutRefusals(c: Config, s: ListState, e: Event)
    requires Total(s) && e.PutReq?
    requires var a := e.args; var kw := Locase(a.keyword);
             || (kw == "alias" && (a.arg1 == "" || a.arg2 == "" || a.arg3 != ""))
             || (kw == "ignore" && (a.arg1 == "" || a.arg2 != ""))
             || (kw !in {"alias", "ignore"} &&
                 (NamesNone(a.keyword) || (a.arg1 != "" && !c.relaxed) ||
                  (a.keyword != "" && ShortFor(a.keyword, "subscribers") && c.readOnly && e.sender != c.manager)))
    ensures Next(c, s, e) == s
  {
    hide Abbreviates, ShortFor, EditReply, Write, MayPut, BodyLines, NamesNone;
    if NamesNone(e.args.keyword) {
      NoneMeant(e.args.keyword);
    }
    if e.args.keyword != "" {
      KeywordMeans(e.args.keyword, Subscribers);
    }
    assert Locase("alias") == "alias" && Locase("ignore") == "ignore";
  }

  /** PUT ... ALIAS and PUT ... IGNORE leave the old lines and one more. */
  lemma PutAdds(c: Config, s: ListState, e: Event, f: SysFile, line: string)
    requires Total(s) && e.PutReq? && Served(c, e.sender, e.password, e.args.keyword, "alias")
    requires var a := e.args;
             || (Locase(a.keyword) == "alias" && a.arg1 != "" && a.arg2 != "" && a.arg3 == "" &&
                 f == Aliases && line == a.arg1 + " " + a.arg2)
             || (Locase(a.keyword) == "ignore" && a.arg1 != "" && a.arg2 == "" && f == Ignored && line == a.arg1)
    ensures var s' := Next(c, s, e);
            if Outdated(s, f) then s' == s else Written(s, s', f, s.text[f] + [line], e.now)
  {
    hide Abbreviates, ShortFor, EditReply, Write, Served, MayPut, BodyLines, Written;
    MayIff(c, e.sender, e.password, e.args.keyword);
    WriteWrites(s, f, s.text[f] + [line], e.now);
    assert Locase("alias") == "alias" && Locase("ignore") == "ignore" && [BLANK] == " ";
  }

  /** A PUT or an EDIT that is not served changes nothing. */
  lemma OthersChangeNothing(c: Config, s: ListState, e: Event)
    requires Total(s)
    requires e.PutReq? ==> !Served(c, e.sender, e.password, e.args.keyword, "alias")
    requires e.EditReq? ==> !Served(c, e.sender, e.password, e.keyword, "aliases")
    requires e.PutReq? || e.EditReq?
    ensures Next(c, s, e) == s
  {
    hide Abbreviates, ShortFor, Served, MayPut, MayEdit, Target;
    if e.PutReq? {
      MayIff(c, e.sender, e.password, e.args.keyword);
    } else {
      MayIff(c, e.sender, e.password, e.keyword);
    }
  }

  // ---------------------------------------------------------------- EDIT

  /** An EDIT that is served sends the lines of the file, and stamps it unless it is
      for browsing or the files are read-only. */
  lemma EditSends(c: Config, s: ListState, sender: string, password: string, k: string, extra: string, f: SysFile)
    requires Total(s) && Served(c, sender, password, k, "aliases") && ShortFor(extra, "-nolock")
    requires k != "" && ShortFor(k, FileName(f)) && !(Locase(k) == "i" && f == Info)
    ensures var locked := extra == "" && (sender == c.manager || !c.readOnly);
            var s' := Next(c, s, EditReq(sender, password, k, extra));
            && EditReply(c, s, sender, password, k, extra) == Sent(f, s.text[f], locked)
            && s'.text == s.text && s'.mtime == s.mtime && s'.hold == s.hold && s'.lock == s.lock
            && (if locked then s'.stamp == s.stamp[f := s.mtime[f]] && s'.editLock == Some(sender) else s' == s)
  {
    hide Abbreviates, ShortFor, Served, MayEdit;
    KeywordMeans(k, f);
    MayIff(c, sender, password, k);
    AbbreviatesIff(extra, "-nolock");
  }

  /** An EDIT of no file, or with anything else behind the file, is refused. */
  lemma EditRefusals(c: Config, s: ListState, sender: string, password: string, k: string, extra: string)
    requires Total(s) && (NamesNone(k) || !ShortFor(extra, "-nolock"))
    ensures EditReply(c, s, sender, password, k, extra) == Refused
    ensures Next(c, s, EditReq(sender, password, k, extra)) == s
  {
    hide Abbreviates, ShortFor, NamesNone, MayEdit;
    if NamesNone(k) {
      NoneMeant(k);
    }
    AbbreviatesIff(extra, "-nolock");
  }

  /** What EDIT sends, put back at once without change, is what the file holds. */
  lemma SentAndPutBack(c: Config, s: ListState, sender: string, password: string, k: string, f: SysFile, sign: string,
                       now: nat)
    requires Total(s) && AsOwner(c, sender, password) && !c.readOnly
    requires k != "" && ShortFor(k, FileName(f)) && Locase(k) !in {"i", "alias", "ignore"} && sign !in s.text[f]
    ensures EditReply(c, s, sender, password, k, "") == Sent(f, s.text[f], true)
    ensures var s1 := Next(c, s, EditReq(sender, password, k, ""));
            var s2 := Next(c, s1, PutReq(sender, password, PutArgs(k, "", "", ""), s.text[f], sign, false, now));
            s2.text == s.text && f !in s2.stamp
  {
    hide Next, EditReply, ShortFor, Served;
    assert Served(c, sender, password, k, "aliases") && Served(c, sender, password, k, "alias") by {
      OwnerServed(c, sender, password, k);
    }
    Empty("-nolock");
    EditSends(c, s, sender, password, k, "", f);
    var s1 := Next(c, s, EditReq(sender, password, k, ""));
    var e := PutReq(sender, password, PutArgs(k, "", "", ""), s.text[f], sign, false, now);
    assert s.text[f][..|s.text[f]|] == s.text[f];
    PutReplaces(c, s1, e, f, |s.text[f]|);
    var s2 := Next(c, s1, e);
    forall g ensures g in s2.text && s2.text[g] == s.text[g] {
    }
  }

  lemma OwnerServed(c: Config, sender: string, password: string, k: string)
    requires AsOwner(c, sender, password)
    ensures Served(c, sender, password, k, "aliases") && Served(c, sender, password, k, "alias")
  {
  }

  lemma Empty(name: string)
    ensures ShortFor("", name)
  {
  }

  /** An alias that a user confirms is added unless the aliases are being edited. */
  lemma AliasAdds(c: Config, s: ListState, from: string, to: string, now: nat)
    requires Total(s)
    ensures var s' := Next(c, s, AliasReq(from, to, now));
            if Aliases in s.stamp then s' == s
            else
              && (forall g :: s'.text[g] == if g == Aliases then s.text[g] + [from + " " + to] else s.text[g])
              && (forall g :: s'.mtime[g] == if g == Aliases then now else s.mtime[g])
              && s' == s.(text := s'.text, mtime := s'.mtime)
  {
    assert [BLANK] == " ";
  }

  // ---------------------------------------------------------------- HOLD, FREE, LOCK, UNLOCK

  /** Nothing but the hold changes, or nothing but the lock. */
  predicate OnlyHold(s: ListState, s': ListState) { s' == s.(hold := s'.hold) }

  predicate OnlyLock(s: ListState, s': ListState) { s' == s.(lock := s'.lock) }

  lemma Kinds()
    ensures KindOf("HOLD") == Hold && KindOf("FREE") == Free && KindOf("LOCK") == Lock && KindOf("UNLOCK") == Unlock
  {
    assert "HOLD"[..3] == "HOL" && "FREE"[..3] == "FRE" && "LOCK"[..3] == "LOC" && "UNLOCK"[..3] == "UNL";
    assert "FREE"[..3][0] != "HOL"[0] && "LOCK"[..3][0] !in {"HOL"[0], "FRE"[0]};
    assert "UNLOCK"[..3][0] !in {"HOL"[0], "FRE"[0], "LOC"[0]};
  }

  /** The manager's HOLD and LOCK are his whoever held the list before; an owner's
      take effect only when nobody does. */
  lemma HoldsAndLocks(c: Config, s: ListState, sender: string, password: string, date: string)
    requires Total(s)
    ensures var h := Next(c, s, HoldReq(sender, password, "HOLD", date));
            var l := Next(c, s, HoldReq(sender, password, "LOCK", date));
            && OnlyHold(s, h) && OnlyLock(s, l)
            && (AsManager(c, sender, password) ==> h.hold == Some("manager") && l.lock == Some("manager"))
            && (AsOwner(c, sender, password) && s.hold.None? ==> h.hold == Some(sender))
            && (AsOwner(c, sender, password) && s.lock.None? ==> l.lock == Some(sender))
            && (!AsManager(c, sender, password) && s.hold.Some? ==> h.hold == s.hold)
            && (!AsManager(c, sender, password) && s.lock.Some? ==> l.lock == s.lock)
            && (!AsManager(c, sender, password) && !AsOwner(c, sender, password) ==> h == s && l == s)
  {
    hide KindOf, Who;
    Kinds();
    MayIff(c, sender, password, "");
  }

  /** FREE ends every hold but the manager's, which he alone ends; the limit of
      messages starts again just when the list is free afterwards. */
  lemma Frees(c: Config, s: ListState, sender: string, password: string, date: string)
    requires Total(s) && (s.hold.Some? ==> PlainWord(s.hold.value))
    ensures var s' := Next(c, s, HoldReq(sender, password, "FREE", date));
            && s' == s.(hold := s'.hold, limits := s'.limits)
            && (if AsManager(c, sender, password) || (AsOwner(c, sender, password) && s.hold != Some("manager"))
                then s'.hold == None && s'.limits == (if c.hasLimit then "0 " + date else s.limits)
                else s' == s)
  {
    hide KindOf, Who;
    Kinds();
    MayIff(c, sender, password, "");
    if s.hold.Some? {
      WhoIs(s.hold.value);
    }
  }

  /** UNLOCK ends a lock of the one who asks, and every lock if that is the manager;
      when the list is not locked afterwards, nobody edits it either. */
  lemma Unlocks(c: Config, s: ListState, sender: string, password: string, date: string)
    requires Total(s) && EditLocked(s) && (s.lock.Some? ==> PlainWord(s.lock.value))
    ensures var s' := Next(c, s, HoldReq(sender, password, "UNLOCK", date));
            && s' == s.(lock := s'.lock, editLock := s'.editLock, stamp := s'.stamp)
            && (if AsManager(c, sender, password) || (AsOwner(c, sender, password) && s.lock in {None, Some(sender)})
                then s'.lock == None && s'.editLock == None && s'.stamp == map[]
                else s' == s)
  {
    hide KindOf, Who;
    Kinds();
    MayIff(c, sender, password, "");
    if s.lock.Some? {
      WhoIs(s.lock.value);
    }
  }
}
