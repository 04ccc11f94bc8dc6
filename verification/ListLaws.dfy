/** Every run of EDIT, PUT, HOLD, FREE, LOCK and UNLOCK: what an accepted PUT
    overwrites, the edit lock, and who may end a hold or a lock. */
module ListLaws {
  import opened Text
  import opened TextFiles
  import opened AddressText
  import opened ListFiles

  // ---------------------------------------------------------------- events

  datatype Event =
    | EditReq(sender: string, password: string, keyword: string, extra: string)
    | PutReq(sender: string, password: string, args: PutArgs, message: seq<string>, sign: string, interactive: bool,
             now: nat)
    | AliasReq(from: string, to: string, now: nat)
    | HoldReq(sender: string, password: string, request: string, date: string)
    | OtherWrite(file: SysFile, lines: seq<string>, now: nat)

  function TimeOf(e: Event): nat
  {
    if e.PutReq? || e.AliasReq? || e.OtherWrite? then e.now else 0
  }

  function Next(c: Config, s: ListState, e: Event): (s': ListState)
    requires Total(s)
    ensures Total(s')
  {
    match e
    case EditReq(sender, password, keyword, extra) =>
        AfterEdit(s, sender, EditReply(c, s, sender, password, keyword, extra))
    case PutReq(sender, password, args, message, sign, interactive, now) =>
      AfterPut(c, s, sender, args, BodyLines(message, sign), now,
               PutReply(c, s, sender, password, args, interactive))
    case AliasReq(from, to, now) => AfterAlias(s, from, to, now)
    case HoldReq(sender, password, request, date) => AfterHold(c, s, sender, password, request, date)
    case OtherWrite(f, lines, now) => s.(text := s.text[f := lines], mtime := s.mtime[f := now])
  }

  function After(c: Config, s0: ListState, es: seq<Event>): (s: ListState)
    requires Total(s0)
    ensures Total(s)
  {
    if es == [] then s0 else Next(c, After(c, s0, es[..|es| - 1]), es[|es| - 1])
  }

  /** The event sends a file for editing. */
  predicate Locks(c: Config, s: ListState, e: Event, f: SysFile)
    requires Total(s)
  {
    match e
    case EditReq(sender, password, keyword, extra) =>
      var a := EditReply(c, s, sender, password, keyword, extra);
      a.Sent? && a.file == f && a.locked
    case PutReq(sender, password, args, _, _, interactive, _) =>
      var r := PutReply(c, s, sender, password, args, interactive);
      r.Stale? && r.forced.Sent? && r.forced.file == f && r.forced.locked
    case _ => false
  }

  predicate Writes(c: Config, s: ListState, e: Event, f: SysFile)
    requires Total(s)
  {
    match e
    case PutReq(sender, password, args, _, _, interactive, _) =>
      PutReply(c, s, sender, password, args, interactive) == Stored(f)
    case AliasReq(_, _, _) => f == Aliases && Aliases !in s.stamp
    case OtherWrite(g, _, _) => f == g
    case _ => false
  }

  /** Every write changes the time of its file. */
  ghost predicate Legal(c: Config, s0: ListState, es: seq<Event>)
    requires Total(s0)
  {
    es != [] ==>
      var k := |es| - 1;
      var s := After(c, s0, es[..k]);
      Legal(c, s0, es[..k]) && forall f :: Writes(c, s, es[k], f) ==> TimeOf(es[k]) > s.mtime[f]
  }

  // ---------------------------------------------------------------- one step

  lemma StampStep(c: Config, s: ListState, e: Event, f: SysFile)
    requires Total(s) && f in Next(c, s, e).stamp
    ensures Locks(c, s, e, f) ==> Next(c, s, e).stamp[f] == s.mtime[f]
    ensures !Locks(c, s, e, f) ==> f in s.stamp && Next(c, s, e).stamp[f] == s.stamp[f]
  {
    hide EditReply, PutReply, Authorized;
  }

  lemma WriteStep(c: Config, s: ListState, e: Event, f: SysFile)
    requires Total(s)
    ensures Writes(c, s, e, f) ==> Next(c, s, e).mtime[f] == TimeOf(e)
    ensures !Writes(c, s, e, f) ==> Next(c, s, e).mtime[f] == s.mtime[f] && Next(c, s, e).text[f] == s.text[f]
    ensures Locks(c, s, e, f) ==> !Writes(c, s, e, f)
  {
    hide EditReply, PutReply, Authorized;
  }

  // ---------------------------------------------------------------- the edit lock

  predicate EditLocked(s: ListState) { s.editLock.Some? <==> s.stamp != map[] }

  lemma EditKeepsEditLock(s: ListState, sender: string, a: EditAnswer)
    requires Total(s) && EditLocked(s)
    ensures EditLocked(AfterEdit(s, sender, a))
  {
    if a.Sent? && a.locked {
      assert a.file in AfterEdit(s, sender, a).stamp;
    }
  }

  lemma WriteKeepsEditLock(s: ListState, f: SysFile, lines: seq<string>, now: nat)
    requires EditLocked(s)
    ensures EditLocked(Write(s, f, lines, now))
  {
    var stamp := Write(s, f, lines, now).stamp;
    if stamp != map[] {
      var g :| g in stamp;
      assert g in s.stamp;
    }
  }

  lemma StepKeepsEditLock(c: Config, s: ListState, e: Event)
    requires Total(s) && EditLocked(s)
    ensures EditLocked(Next(c, s, e))
  {
    hide EditReply, PutReply, Authorized, KindOf, Holder, AfterEdit, Write;
    match e
    case EditReq(sender, password, keyword, extra) =>
      EditKeepsEditLock(s, sender, EditReply(c, s, sender, password, keyword, extra));
    case PutReq(sender, password, args, message, sign, interactive, now) =>
      var r := PutReply(c, s, sender, password, args, interactive);
      if r.Stale? {
        EditKeepsEditLock(s, sender, r.forced);
      } else if r.Stored? {
        WriteKeepsEditLock(s, r.file, s.text[r.file] + [AddedLine(args)], now);
        WriteKeepsEditLock(s, r.file, BodyLines(message, sign), now);
      }
    case _ =>
  }

  /** After every run, the edit lock is there exactly when some stamp is. */
  lemma {:induction false} EditLockIffStamped(c: Config, s0: ListState, es: seq<Event>)
    requires Total(s0) && EditLocked(s0)
    ensures EditLocked(After(c, s0, es))
  {
    hide Next, EditLocked;
    if es != [] {
      EditLockIffStamped(c, s0, es[..|es| - 1]);
      StepKeepsEditLock(c, After(c, s0, es[..|es| - 1]), es[|es| - 1]);
    }
  }

  // ---------------------------------------------------------------- what an accepted PUT overwrites

  ghost predicate Quiet(c: Config, s0: ListState, es: seq<Event>, f: SysFile, i: nat)
    requires Total(s0)
  {
    forall j :: i <= j < |es| ==> !Writes(c, After(c, s0, es[..j]), es[j], f)
  }

  /** The time of a file tells its versions apart. */
  lemma {:induction false} SameTimeSameVersion(c: Config, s0: ListState, es: seq<Event>, f: SysFile, i: nat)
    requires Total(s0) && Legal(c, s0, es) && i <= |es|
    ensures var a, b := After(c, s0, es[..i]), After(c, s0, es);
            && a.mtime[f] <= b.mtime[f]
            && (a.mtime[f] == b.mtime[f] ==> a.text[f] == b.text[f] && Quiet(c, s0, es, f, i))
  {
    hide Next, Writes, Quiet;
    if i == |es| {
      assert es[..i] == es;
      assert Quiet(c, s0, es, f, i) by {
        QuietEnd(c, s0, es, f);
      }
    } else {
      var k := |es| - 1;
      var es' := es[..k];
      assert es'[..i] == es[..i];
      SameTimeSameVersion(c, s0, es', f, i);
      WriteStep(c, After(c, s0, es'), es[k], f);
      if !Writes(c, After(c, s0, es'), es[k], f) && Quiet(c, s0, es', f, i) {
        QuietStep(c, s0, es, f, i);
      }
    }
  }

  lemma QuietEnd(c: Config, s0: ListState, es: seq<Event>, f: SysFile)
    requires Total(s0)
    ensures Quiet(c, s0, es, f, |es|)
  {
  }

  lemma QuietStep(c: Config, s0: ListState, es: seq<Event>, f: SysFile, i: nat)
    requires Total(s0) && es != []
    requires var k := |es| - 1;
             Quiet(c, s0, es[..k], f, i) && !Writes(c, After(c, s0, es[..k]), es[k], f)
    ensures Quiet(c, s0, es, f, i)
  {
    hide Writes, After;
    var es' := es[..|es| - 1];
    forall j | 0 <= j < |es'| ensures es'[..j] == es[..j] && es'[j] == es[j] {
    }
  }

  /** Event i sends the file for editing, and no later one does. */
  ghost predicate LastEdit(c: Config, s0: ListState, es: seq<Event>, f: SysFile, i: nat)
    requires Total(s0)
  {
    && i < |es| && Locks(c, After(c, s0, es[..i]), es[i], f)
    && forall j :: i < j < |es| ==> !Locks(c, After(c, s0, es[..j]), es[j], f)
  }

  lemma LastEditKept(c: Config, s0: ListState, es: seq<Event>, f: SysFile, i: nat)
    requires Total(s0) && es != []
    requires var k := |es| - 1;
             LastEdit(c, s0, es[..k], f, i) && !Locks(c, After(c, s0, es[..k]), es[k], f)
    ensures LastEdit(c, s0, es, f, i)
  {
    hide Locks, After;
    var es' := es[..|es| - 1];
    forall j | 0 <= j < |es'| ensures es'[..j] == es[..j] && es'[j] == es[j] {
    }
  }

  /** A stamp is the time the file had when it was last sent for editing. */
  lemma {:induction false} StampIsOfLastEdit(c: Config, s0: ListState, es: seq<Event>, f: SysFile) returns (i: nat)
    requires Total(s0) && s0.stamp == map[] && f in After(c, s0, es).stamp
    ensures LastEdit(c, s0, es, f, i) && After(c, s0, es).stamp[f] == After(c, s0, es[..i]).mtime[f]
  {
    hide Next, Locks, LastEdit;
    var k := |es| - 1;
    var s := After(c, s0, es[..k]);
    StampStep(c, s, es[k], f);
    if Locks(c, s, es[k], f) {
      i := k;
      LastIsLast(c, s0, es, f);
    } else {
      i := StampIsOfLastEdit(c, s0, es[..k], f);
      LastEditKept(c, s0, es, f, i);
      LastEditInside(c, s0, es[..k], f, i);
      assert es[..k][..i] == es[..i];
    }
  }

  lemma LastIsLast(c: Config, s0: ListState, es: seq<Event>, f: SysFile)
    requires Total(s0) && es != [] && Locks(c, After(c, s0, es[..|es| - 1]), es[|es| - 1], f)
    ensures LastEdit(c, s0, es, f, |es| - 1)
  {
    hide Locks, After;
  }

  lemma LastEditInside(c: Config, s0: ListState, es: seq<Event>, f: SysFile, i: nat)
    requires Total(s0) && LastEdit(c, s0, es, f, i)
    ensures i < |es|
  {
  }

  /** A PUT that is accepted while the file is stamped overwrites exactly the text
      the last EDIT sent, and nobody has written the file in between. */
  lemma AcceptedPutIsOfLastEdit(c: Config, s0: ListState, es: seq<Event>, e: Event, f: SysFile) returns (i: nat)
    requires Total(s0) && s0.stamp == map[] && Legal(c, s0, es)
    requires e.PutReq? && Writes(c, After(c, s0, es), e, f) && f in After(c, s0, es).stamp
    ensures LastEdit(c, s0, es, f, i) && Quiet(c, s0, es, f, i)
    ensures After(c, s0, es).text[f] == After(c, s0, es[..i]).text[f]
  {
    hide After, Quiet, LastEdit;
    i := StampIsOfLastEdit(c, s0, es, f);
    LastEditInside(c, s0, es, f, i);
    SameTimeSameVersion(c, s0, es, f, i);
    StoredIfNotModified(c, After(c, s0, es), e, f);
  }

  lemma StoredIfNotModified(c: Config, s: ListState, e: Event, f: SysFile)
    requires Total(s) && e.PutReq? && Writes(c, s, e, f)
    ensures !Modified(s, f)
  {
  }

  // ---------------------------------------------------------------- the EDIT that a refused PUT forces

  lemma {:induction false} SameInitial(k: string, name: string)
    requires k != "" && name != "" && Abbreviates(k, name)
    ensures Lower(k[0]) == Lower(name[0]) && (|k| > 1 ==> |name| > 1 && Lower(k[1]) == Lower(name[1]))
  {
    var a, b := Locase(k), Locase(name);
    assert b[..|a|] == a;
    assert a[0] == b[..|a|][0];
    if |k| > 1 {
      assert a[1] == b[..|a|][1];
    }
  }

  lemma OneLetter(k: string, name: string)
    requires |k| == 1 && name != "" && Lower(k[0]) == Lower(name[0])
    ensures Abbreviates(k, name) && Locase(k) == [Lower(k[0])]
  {
    assert Locase(name)[..1] == Locase(k);
  }

  /** EDIT and PUT mean the same file by every keyword but "i". */
  lemma EditMeansPutUnlessI(k: string)
    requires k != "" && PutFile(k).Some?
    ensures EditFile(k) == PutFile(k) <==> Locase(k) != "i"
  {
    hide Abbreviates;
    Initials(k);
    if Abbreviates(k, "ignored") && Abbreviates(k, "info") {
      SameInitial(k, "ignored");
      SameInitial(k, "info");
      assert |k| == 1;
      OneLetter(k, "info");
    }
    if Locase(k) == "i" {
      assert Lower(k[0]) == Locase(k)[0];
      OneLetter(k, "ignored");
      OneLetter(k, "info");
    }
  }

  lemma Initials(k: string)
    requires k != ""
    ensures forall n ::
              n in {"aliases", "ignored", "info", "subscribers", "welcome", "news", "peers"} && Abbreviates(k, n) ==>
                Lower(k[0]) == n[0]
  {
    hide Abbreviates;
    forall n | n in {"aliases", "ignored", "info", "subscribers", "welcome", "news", "peers"} && Abbreviates(k, n)
      ensures Lower(k[0]) == n[0]
    {
      SameInitial(k, n);
    }
  }

  /** A PUT refused as stale and answered by a locking EDIT is accepted when it is
      made again, if nothing happens in between, exactly when the keyword is not "i". */
  lemma ResentPutIsAccepted(c: Config, s: ListState, sender: string, password: string, a: PutArgs)
    requires Total(s)
    requires var r := PutReply(c, s, sender, password, a, false);
             r.Stale? && r.forced.Sent? && r.forced.locked
    ensures var r := PutReply(c, s, sender, password, a, false);
            var s' := AfterPut(c, s, sender, a, [], 0, r);
            PutReply(c, s', sender, password, a, false) == Stored(r.file) <==> Locase(a.keyword) != "i"
  {
    hide Abbreviates, SameNoCase, Authorized;
    EditMeansPutUnlessI(a.keyword);
  }

  // ---------------------------------------------------------------- holds and locks

  ghost predicate ByManager(c: Config, e: Event) { e.HoldReq? && e.sender == c.manager }

  ghost predicate WithoutManager(c: Config, es: seq<Event>)
  {
    forall i :: 0 <= i < |es| ==> !ByManager(c, es[i])
  }

  lemma WhoIs(name: string)
    requires PlainWord(name)
    ensures Who(name) == name
  {
    WordAtStart(name, [LF]);
  }

  lemma ManagerIsManager()
    ensures Who("manager") == "manager"
  {
    WhoIs("manager");
  }

  /** Nothing an owner or anyone else asks for ends the manager's hold. */
  lemma {:induction false} ManagerHoldSurvives(c: Config, s0: ListState, es: seq<Event>)
    requires Total(s0) && s0.hold == Some("manager") && WithoutManager(c, es)
    ensures After(c, s0, es).hold == Some("manager")
  {
    hide Next;
    if es != [] {
      var k := |es| - 1;
      ManagerHoldSurvives(c, s0, es[..k]);
      ManagerHoldStep(c, After(c, s0, es[..k]), es[k]);
    }
  }

  lemma ManagerHoldStep(c: Config, s: ListState, e: Event)
    requires Total(s) && s.hold == Some("manager") && !ByManager(c, e)
    ensures Next(c, s, e).hold == s.hold
  {
    hide EditReply, PutReply, Who;
    ManagerIsManager();
  }

  /** An owner is called manager, is not the manager, and the list has a password. */
  predicate Impostor(c: Config) { "manager" in c.owners && "manager" != c.manager && c.listPassword != "" }

  /** His lock is as safe, unless there is an impostor. */
  lemma {:induction false} ManagerLockSurvives(c: Config, s0: ListState, es: seq<Event>)
    requires Total(s0) && s0.lock == Some("manager") && !Impostor(c) && WithoutManager(c, es)
    ensures After(c, s0, es).lock == Some("manager")
  {
    hide Next, Impostor;
    if es != [] {
      var k := |es| - 1;
      ManagerLockSurvives(c, s0, es[..k]);
      ManagerLockStep(c, After(c, s0, es[..k]), es[k]);
    }
  }

  lemma ManagerLockStep(c: Config, s: ListState, e: Event)
    requires Total(s) && s.lock == Some("manager") && !ByManager(c, e)
    ensures !Impostor(c) ==> Next(c, s, e).lock == s.lock
  {
    hide EditReply, PutReply, Who;
    ManagerIsManager();
  }

  /** He ends it with UNLOCK. */
  lemma OwnerCalledManager(c: Config, s: ListState)
    requires Total(s) && s.lock == Some("manager") && Impostor(c)
    ensures Next(c, s, HoldReq("manager", c.listPassword, "UNLOCK", "")).lock == None
  {
    hide Who;
    ManagerIsManager();
    KindNames();
  }

  lemma OneEvent(c: Config, s0: ListState, e: Event)
    requires Total(s0)
    ensures After(c, s0, [e]) == Next(c, s0, e)
  {
    hide Next;
    assert [e][..0] == [] && After(c, s0, []) == s0;
  }

  /** Some run without the manager ends his lock if and only if there is an impostor. */
  lemma ManagerLockEndsIff(c: Config, s0: ListState)
    requires Total(s0) && s0.lock == Some("manager")
    ensures Impostor(c) <==> exists es :: WithoutManager(c, es) && After(c, s0, es).lock != Some("manager")
  {
    hide After, Next;
    if Impostor(c) {
      var e := HoldReq("manager", c.listPassword, "UNLOCK", "");
      OwnerCalledManager(c, s0);
      OneEvent(c, s0, e);
      assert WithoutManager(c, [e]);
    }
    if es :| WithoutManager(c, es) && After(c, s0, es).lock != Some("manager") {
      if !Impostor(c) {
        ManagerLockSurvives(c, s0, es);
      }
    }
  }

  lemma KindNames()
    ensures KindOf("UNLOCK") == Unlock
  {
    assert "UNLOCK"[..3] == "UNL" && "UNLOCK"[..3][0] == 'U';
  }

  /** What is passed on to hold_free: at least three letters of one of its names. */
  predicate Dispatched(request: string)
  {
    |request| >= 3 && exists n :: n in {"HOLD", "FREE", "LOCK", "UNLOCK"} && StartsWith(n, request)
  }

  lemma DispatchedKind(request: string)
    requires Dispatched(request)
    ensures KindOf(request) != Other
  {
    var n :| n in {"HOLD", "FREE", "LOCK", "UNLOCK"} && StartsWith(n, request);
    assert n[..|request|][..3] == n[..3] == request[..3];
    assert "HOLD"[..3] == "HOL" && "FREE"[..3] == "FRE" && "LOCK"[..3] == "LOC" && "UNLOCK"[..3] == "UNL";
  }

  /** An owner's lock is changed by the manager's LOCK and UNLOCK and by that
      owner's UNLOCK, and by nothing else. */
  lemma OwnerLockEndsIff(c: Config, s: ListState, e: Event, o: string)
    requires Total(s) && s.lock == Some(o) && PlainWord(o) && o != "manager"
    requires e.HoldReq? ==> Dispatched(e.request)
    ensures Next(c, s, e).lock != s.lock <==>
            && e.HoldReq? && Authorized(c, e.sender, e.password, false)
            && if e.sender == c.manager then KindOf(e.request) in {Lock, Unlock}
               else KindOf(e.request) == Unlock && e.sender == o
  {
    hide EditReply, PutReply, Who, KindOf, Authorized, Dispatched;
    WhoIs(o);
    if e.HoldReq? {
      DispatchedKind(e.request);
    }
  }

  /** So it stands while neither of the two asks. */
  lemma {:induction false} OwnerLockSurvives(c: Config, s0: ListState, es: seq<Event>, o: string)
    requires Total(s0) && s0.lock == Some(o) && PlainWord(o) && o != "manager"
    requires forall i :: 0 <= i < |es| && es[i].HoldReq? ==>
               es[i].sender !in {o, c.manager} && Dispatched(es[i].request)
    ensures After(c, s0, es).lock == Some(o)
  {
    hide Next, KindOf, PlainWord, Dispatched;
    if es != [] {
      var k := |es| - 1;
      OwnerLockSurvives(c, s0, es[..k], o);
      OwnerLockEndsIff(c, After(c, s0, es[..k]), es[k], o);
    }
  }
}
