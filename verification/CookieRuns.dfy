/** Purging, and every run of saved and confirmed requests. */
module CookieRuns {
  import opened Text
  import opened Numbers
  import opened Cookies
  import opened CookieLaws

  // ---------------------------------------------------------------- purging

  predicate HasDash(x: Item) { '-' in ItemLine(x) }

  /** When the file was last purged, and how many items that is the text of. */
  function LastOf(xs: seq<Item>, junk: string): (r: (int, nat))
    ensures r.1 <= 1
  {
    if xs == [] then LastPurge(junk)
    else match xs[0]
      case Stamp(n) => (n, 1)
      case Live(_) => (0, 0)
      case Spent(_) => (0, if HasDash(xs[0]) then 0 else 1)
  }

  function TimeOf(x: Item): int
  {
    match x
    case Stamp(n) => n
    case Live(t) => t.time
    case Spent(_) => 0
  }

  function Young(xs: seq<Item>, earliest: int): (r: seq<Item>)
    ensures |r| <= |xs| && forall i :: 0 <= i < |r| ==> r[i] in xs && TimeOf(r[i]) > earliest
  {
    if xs == [] then []
    else (if TimeOf(xs[0]) > earliest then [xs[0]] else []) + Young(xs[1..], earliest)
  }

  function Rest(xs: seq<Item>, junk: string): seq<Item>
  {
    if xs == [] then [] else xs[LastOf(xs, junk).1..]
  }

  function Purge(xs: seq<Item>, now: nat, days: int, junk: string): seq<Item>
  {
    if !Due(now, LastOf(xs, junk).0) then xs
    else [Stamp(now)] + Young(Rest(xs, junk), now - DAY * days)
  }

  lemma FirstLine(x: Item)
    ensures LastPurge(ItemLine(x) + [LF]) == LastOf([x], "")
  {
    hide Dec, Atol, CookieText;
    var l := ItemLine(x);
    match x
    case Stamp(n) =>
      DecDigits(n);
      AtolDec(n, [LF]);
    case Live(t) =>
      CookieShape(t);
    case Spent(t) =>
      CookieShape(t);
      var k := |CookieOf(t)|;
      var rest := [BLANK] + t.user + [BLANK] + t.request + [LF];
      assert l + [LF] == Zeros(k) + rest;
      AtolZeros(k, rest);
  }

  lemma TokenTime(x: Item)
    ensures Atol(TokenOf(x)) == TimeOf(x)
  {
    hide Dec, Atol;
    match x
    case Stamp(n) =>
      AtolDec(n, "");
      assert Dec(n) + "" == Dec(n);
    case Live(t) =>
      var rest := "-" + Dec(t.pid) + "-" + Dec(t.serial);
      assert CookieOf(t) == Dec(t.time) + rest;
      AtolDec(t.time, rest);
    case Spent(t) =>
      CookieShape(t);
      var k := |CookieOf(t)|;
      AtolZeros(k, "");
      assert Zeros(k) + "" == Zeros(k);
  }

  lemma FileCons(x: Item, ys: seq<Item>)
    ensures FileLines([x] + ys) == [ItemLine(x)] + FileLines(ys)
  {
    hide ItemLine;
  }

  lemma FileTail(xs: seq<Item>, k: nat)
    requires k <= |xs|
    ensures FileLines(xs)[k..] == FileLines(xs[k..])
  {
    hide ItemLine;
  }

  lemma {:induction false} YoungerIsYoung(xs: seq<Item>, number: string, earliest: int)
    ensures Younger(FileLines(xs), number, earliest) == FileLines(Young(xs, earliest))
  {
    hide Token, TokenOf, ItemLine, Atol, TimeOf;
    if xs != [] {
      TokenIs(xs[0]);
      TokenTime(xs[0]);
      FileTail(xs, 1);
      YoungerIsYoung(xs[1..], TokenOf(xs[0]), earliest);
      YoungerHead(xs, number, earliest);
    }
  }

  lemma YoungerHead(xs: seq<Item>, number: string, earliest: int)
    requires xs != [] && Token(ItemLine(xs[0])) == TokenOf(xs[0]) != "" && Atol(TokenOf(xs[0])) == TimeOf(xs[0])
    requires FileLines(xs)[1..] == FileLines(xs[1..])
    requires Younger(FileLines(xs[1..]), TokenOf(xs[0]), earliest) == FileLines(Young(xs[1..], earliest))
    ensures Younger(FileLines(xs), number, earliest) == FileLines(Young(xs, earliest))
  {
    hide Token, TokenOf, ItemLine, Atol, TimeOf;
    FileCons(xs[0], Young(xs[1..], earliest));
  }

  lemma StampLine(now: nat)
    ensures ItemLine(Stamp(now)) == Dec(now)
  {
  }

  /** remove_expired_cookies keeps the items that are young enough, behind a new stamp. */
  lemma PurgeRefines(xs: seq<Item>, now: nat, days: int, junk: string)
    ensures Purged(FileLines(xs), now, days, junk) == FileLines(Purge(xs, now, days, junk))
  {
    hide ItemLine, Atol, Younger, Young, LastPurge;
    var ls := FileLines(xs);
    if xs != [] {
      FirstLine(xs[0]);
    }
    var (last, skip) := LastOf(xs, junk);
    var rest := Rest(xs, junk);
    if xs != [] {
      FileTail(xs, skip);
    }
    YoungerIsYoung(rest, "", now - DAY * days);
    StampLine(now);
    FileCons(Stamp(now), Young(rest, now - DAY * days));
  }

  function Tickets(xs: seq<Item>): seq<Ticket>
  {
    if xs == [] then []
    else if xs[0].Live? then [xs[0].ticket] + Tickets(xs[1..]) else Tickets(xs[1..])
  }

  function Unexpired(ts: seq<Ticket>, earliest: int): seq<Ticket>
  {
    if ts == [] then []
    else if ts[0].time > earliest then [ts[0]] + Unexpired(ts[1..], earliest) else Unexpired(ts[1..], earliest)
  }

  lemma {:induction false} YoungTickets(xs: seq<Item>, earliest: int)
    ensures Tickets(Young(xs, earliest)) == Unexpired(Tickets(xs), earliest)
  {
    if xs != [] {
      YoungTickets(xs[1..], earliest);
      var x, ys := xs[0], Young(xs[1..], earliest);
      assert Young(xs, earliest) == if TimeOf(x) > earliest then [x] + ys else ys;
      assert ([x] + ys)[1..] == ys;
      if x.Live? {
        assert ([x.ticket] + Tickets(xs[1..]))[1..] == Tickets(xs[1..]);
      }
    }
  }

  lemma SkipKeepsTickets(xs: seq<Item>, junk: string)
    ensures Tickets(Rest(xs, junk)) == Tickets(xs)
  {
  }

  /** A purge that is due keeps exactly the live requests that have not expired, in
      their order, and drops every spent one, whatever the first line is; one that
      is not due changes nothing. */
  lemma PurgeExact(xs: seq<Item>, now: nat, days: int, junk: string)
    ensures var ys := Purge(xs, now, days, junk);
            var earliest := now - DAY * days;
            if Due(now, LastOf(xs, junk).0) then
              && Tickets(ys) == Unexpired(Tickets(xs), earliest)
              && (earliest >= 0 ==> forall i :: 0 <= i < |ys| ==> !ys[i].Spent?)
            else ys == xs
  {
    hide LastOf, Young, HasDash;
    var earliest := now - DAY * days;
    var ys := Young(Rest(xs, junk), earliest);
    YoungTickets(Rest(xs, junk), earliest);
    SkipKeepsTickets(xs, junk);
    assert ([Stamp(now)] + ys)[1..] == ys;
    assert forall i :: 0 <= i < |ys| && ys[i].Spent? ==> TimeOf(ys[i]) == 0;
  }

  /** After a purge the next one is due when a day is over, or the clock has gone back;
      until then nothing changes. */
  lemma PurgedForADay(xs: seq<Item>, now: nat, next: nat, days: int, junk: string)
    requires Due(now, LastOf(xs, junk).0)
    ensures var ys := Purge(xs, now, days, junk);
            && ys != [] && ys[0] == Stamp(now)
            && (Purge(ys, next, days, junk) == ys <==> now <= next <= now + DAY)
            && (!(now <= next <= now + DAY) ==> Purge(ys, next, days, junk)[0] == Stamp(next))
  {
    hide Young;
  }

  /** The first purge: a file that begins with a live or a spent request is purged as
      soon as the clock shows the second day; an empty file when its junk says so. */
  lemma PurgedAtFirst(xs: seq<Item>, now: nat, days: int, junk: string)
    requires xs != [] && !xs[0].Stamp?
    ensures now > DAY ==> Purge(xs, now, days, junk)[0] == Stamp(now)
    ensures now <= DAY ==> Purge(xs, now, days, junk) == xs
  {
    hide Young;
  }

  // ---------------------------------------------------------------- what is left to redeem

  function Count(xs: seq<Item>, t: Ticket): nat { multiset(Tickets(xs))[t] }

  lemma {:induction false} UnexpiredCount(ts: seq<Ticket>, earliest: int, t: Ticket)
    ensures multiset(Unexpired(ts, earliest))[t] == if t.time > earliest then multiset(ts)[t] else 0
  {
    if ts != [] {
      assert ts == [ts[0]] + ts[1..];
      UnexpiredCount(ts[1..], earliest, t);
    }
  }

  lemma PurgeCount(xs: seq<Item>, now: nat, days: int, junk: string, t: Ticket)
    ensures Count(Purge(xs, now, days, junk), t) ==
            if Due(now, LastOf(xs, junk).0) && t.time <= now - DAY * days then 0 else Count(xs, t)
  {
    hide Purge, LastOf;
    PurgeExact(xs, now, days, junk);
    UnexpiredCount(Tickets(xs), now - DAY * days, t);
  }

  lemma {:induction false} TicketsAppend(xs: seq<Item>, x: Item)
    ensures Tickets(xs + [x]) == Tickets(xs) + if x.Live? then [x.ticket] else []
  {
    if xs != [] {
      assert (xs + [x])[1..] == xs[1..] + [x];
      TicketsAppend(xs[1..], x);
    } else {
      assert [x][1..] == [];
      assert xs + [x] == [x];
    }
  }

  lemma {:induction false} TakeCount(xs: seq<Item>, c: string, t: Ticket)
    ensures var i := FindLive(xs, c);
            Count(xs, t) == Count(Take(xs, c), t) + if i < |xs| && xs[i].ticket == t then 1 else 0
  {
    hide CookieOf;
    if xs != [] {
      var i := FindLive(xs, c);
      if i == 0 {
        assert Take(xs, c)[1..] == xs[1..];
      } else {
        TakeCount(xs[1..], c, t);
        assert Take(xs, c)[1..] == Take(xs[1..], c);
        assert Take(xs, c)[0] == xs[0];
      }
    }
  }

  lemma {:induction false} CountLive(xs: seq<Item>, i: nat)
    requires i < |xs| && xs[i].Live?
    ensures Count(xs, xs[i].ticket) > 0
  {
    if i > 0 {
      CountLive(xs[1..], i - 1);
    }
  }

  // ---------------------------------------------------------------- runs

  datatype Event =
    | Save(now: nat, pid: nat, serial: nat, user: string, request: string, junk: string)
    | Confirm(now: nat, body: string, head: string, junk: string)

  function TicketOf(e: Event): Ticket
    requires e.Save?
  {
    Ticket(e.now, e.pid, e.serial, e.user, e.request)
  }

  /** The text of the file, and what a confirmation answers. */
  function TextStep(ls: seq<string>, e: Event, days: int): (seq<string>, Answer)
  {
    var mid := Purged(ls, e.now, days, e.junk);
    match e
    case Save(now, pid, serial, user, request, _) =>
      (mid + [SavedLine(CookieText(now, pid, serial), user, request)], Answer(false, "", ""))
    case Confirm(_, body, head, _) => Confirmed(mid, body, head, "", "")
  }

  function TextAfter(es: seq<Event>, days: int): seq<string>
  {
    if es == [] then [] else TextStep(TextAfter(es[..|es| - 1], days), es[|es| - 1], days).0
  }

  datatype State = State(items: seq<Item>, redeemed: set<Ticket>)

  /** The cookie that a confirmation redeems, and its ticket. */
  function Used(xs: seq<Item>, body: string, head: string): string
  {
    if FindLive(xs, body) < |xs| then body else head
  }

  function Winner(xs: seq<Item>, c: string): Option<Ticket>
  {
    var i := FindLive(xs, c);
    if i < |xs| then Some(xs[i].ticket) else None
  }

  function Step(s: State, e: Event, days: int): State
  {
    var xs := Purge(s.items, e.now, days, e.junk);
    match e
    case Save(_, _, _, _, _, _) => State(xs + [Live(TicketOf(e))], s.redeemed)
    case Confirm(_, body, head, _) =>
      var c := Used(xs, body, head);
      State(Take(xs, c), s.redeemed + (match Winner(xs, c) case None => {} case Some(t) => {t}))
  }

  function After(es: seq<Event>, days: int): State
  {
    if es == [] then State([], {}) else Step(After(es[..|es| - 1], days), es[|es| - 1], days)
  }

  predicate ValidEvent(e: Event)
  {
    match e
    case Save(_, _, _, _, _, _) => ValidTicket(TicketOf(e))
    case Confirm(_, body, head, _) => !Misread(body) && !Misread(head)
  }

  /** The clock does not go back, and no process hands out a cookie twice. */
  ghost predicate LegalRun(es: seq<Event>)
  {
    && (forall i :: 0 <= i < |es| ==> ValidEvent(es[i]))
    && (forall i, j :: 0 <= i < j < |es| ==> es[i].now <= es[j].now)
    && (forall i, j :: 0 <= i < j < |es| && es[i].Save? && es[j].Save? ==>
          (es[i].now, es[i].pid, es[i].serial) != (es[j].now, es[j].pid, es[j].serial))
  }

  ghost predicate Issued(es: seq<Event>, t: Ticket)
  {
    exists j :: 0 <= j < |es| && es[j].Save? && TicketOf(es[j]) == t
  }

  // ---------------------------------------------------------------- the text follows the tickets

  lemma PurgeWellFormed(xs: seq<Item>, now: nat, days: int, junk: string)
    requires WellFormed(xs)
    ensures WellFormed(Purge(xs, now, days, junk))
  {
    hide ValidTicket, HasDash;
    var ys := Young(Rest(xs, junk), now - DAY * days);
    assert forall i :: 0 <= i < |ys| ==> ys[i] in Rest(xs, junk);
    forall i | 0 <= i < |ys| ensures !ys[i].Stamp? && ValidTicket(ys[i].ticket) {
      var k :| 0 <= k < |Rest(xs, junk)| && Rest(xs, junk)[k] == ys[i];
      assert Rest(xs, junk)[k] == xs[k + LastOf(xs, junk).1];
    }
  }

  lemma TakeWellFormed(xs: seq<Item>, c: string)
    requires WellFormed(xs)
    ensures WellFormed(Take(xs, c))
  {
    hide ValidTicket, CookieOf;
  }

  lemma ConfirmRefines(xs: seq<Item>, body: string, head: string)
    requires WellFormed(xs) && !Misread(body) && !Misread(head)
    ensures var c := Used(xs, body, head);
            Confirmed(FileLines(xs), body, head, "", "") == (FileLines(Take(xs, c)), TakeAnswer(xs, c, "", ""))
  {
    hide WellFormed, Misread, Redeemed, RedeemAnswer, FileLines;
    RedeemIsTake(xs, body, "", "");
    if FindLive(xs, body) == |xs| {
      assert Take(xs, body) == xs;
      RedeemIsTake(xs, head, "", "");
    }
  }

  lemma StepRefines(s: State, e: Event, days: int)
    requires WellFormed(s.items) && ValidEvent(e)
    ensures WellFormed(Step(s, e, days).items)
    ensures TextStep(FileLines(s.items), e, days).0 == FileLines(Step(s, e, days).items)
    ensures e.Confirm? ==>
              var xs := Purge(s.items, e.now, days, e.junk);
              TextStep(FileLines(s.items), e, days).1 == TakeAnswer(xs, Used(xs, e.body, e.head), "", "")
  {
    hide Purge, Purged, Confirmed, Take, TakeAnswer, ValidTicket, Used, Misread, SavedLine, CookieText;
    var xs := Purge(s.items, e.now, days, e.junk);
    PurgeWellFormed(s.items, e.now, days, e.junk);
    PurgeRefines(s.items, e.now, days, e.junk);
    match e
    case Save(_, _, _, _, _, _) =>
      var t := TicketOf(e);
      assert ItemLine(Live(t)) == SavedLine(CookieText(t.time, t.pid, t.serial), t.user, t.request);
      assert FileLines(xs + [Live(t)]) == FileLines(xs) + [ItemLine(Live(t))];
    case Confirm(_, body, head, _) =>
      ConfirmRefines(xs, body, head);
      TakeWellFormed(xs, Used(xs, body, head));
  }

  // ---------------------------------------------------------------- the invariant

  /** A live request was saved, has not been redeemed, and is there once; the stamp
      is not in the future and nothing live had expired then. */
  ghost predicate Inv(es: seq<Event>, s: State, now: nat, days: int)
  {
    && WellFormed(s.items)
    && (forall t :: Count(s.items, t) <= 1)
    && (forall t :: Count(s.items, t) > 0 ==> Issued(es, t) && t !in s.redeemed)
    && (forall t :: Issued(es, t) ==> t.time <= now)
    && (forall t :: t in s.redeemed ==> Issued(es, t))
    && Stamped(s.items, now, days)
  }

  ghost predicate Stamped(xs: seq<Item>, now: nat, days: int)
  {
    xs != [] && xs[0].Stamp? ==>
      && xs[0].time <= now
      && forall t :: Count(xs, t) > 0 ==> t.time > xs[0].time - DAY * days
  }

  lemma LastOfItems(xs: seq<Item>, junk: string)
    requires xs != []
    ensures LastOf(xs, junk).0 == if xs[0].Stamp? then xs[0].time else 0
  {
  }

  /** A purge keeps the stamp right, and leaves nothing live that is too old. */
  lemma PurgeStamps(xs: seq<Item>, before: nat, now: nat, days: int, junk: string)
    requires Stamped(xs, before, days) && before <= now && days >= 1
    ensures var ys := Purge(xs, now, days, junk);
            Stamped(ys, now, days) && forall t :: Count(ys, t) > 0 ==> now - t.time < (days + 1) * DAY
  {
    hide LastOf, Count, Young, Rest;
    var ys := Purge(xs, now, days, junk);
    forall t | Count(ys, t) > 0
      ensures now - t.time < (days + 1) * DAY && (ys != [] && ys[0].Stamp? ==> t.time > ys[0].time - DAY * days)
    {
      PurgeCount(xs, now, days, junk, t);
      CountNone(xs, t);
      CountNone(ys, t);
      LastOfItems(xs, junk);
    }
    if xs != [] {
      LastOfItems(xs, junk);
    }
  }

  lemma CountNone(xs: seq<Item>, t: Ticket)
    ensures Count(xs, t) > 0 ==> xs != []
  {
  }

  lemma PurgeKeeps(es: seq<Event>, s: State, before: nat, e: Event, days: int)
    requires Inv(es, s, before, days) && before <= e.now && days >= 1
    ensures Inv(es, State(Purge(s.items, e.now, days, e.junk), s.redeemed), e.now, days)
  {
    hide Count, Purge, Issued, WellFormed, Stamped, LastOf;
    var xs := Purge(s.items, e.now, days, e.junk);
    PurgeWellFormed(s.items, e.now, days, e.junk);
    PurgeStamps(s.items, before, e.now, days, e.junk);
    forall t ensures Count(xs, t) <= Count(s.items, t) {
      PurgeCount(s.items, e.now, days, e.junk, t);
    }
  }

  lemma IssuedStep(es: seq<Event>, e: Event, t: Ticket)
    ensures Issued(es + [e], t) <==> Issued(es, t) || (e.Save? && TicketOf(e) == t)
  {
    if Issued(es, t) {
      var j :| 0 <= j < |es| && es[j].Save? && TicketOf(es[j]) == t;
      assert (es + [e])[j] == es[j];
    }
    if e.Save? {
      assert (es + [e])[|es|] == e;
    }
  }

  lemma SaveKeeps(es: seq<Event>, xs: seq<Item>, redeemed: set<Ticket>, e: Event, days: int)
    requires Inv(es, State(xs, redeemed), e.now, days) && e.Save? && ValidEvent(e) && days >= 1
    requires !Issued(es, TicketOf(e))
    ensures Inv(es + [e], State(xs + [Live(TicketOf(e))], redeemed), e.now, days)
  {
    hide ValidTicket, Issued;
    var u, ys := TicketOf(e), xs + [Live(TicketOf(e))];
    TicketsAppend(xs, Live(u));
    forall t ensures Count(ys, t) == Count(xs, t) + if t == u then 1 else 0 {
    }
    hide Count;
    forall t ensures Issued(es + [e], t) <==> Issued(es, t) || t == u {
      IssuedStep(es, e, t);
    }
    assert Stamped(ys, e.now, days);
  }

  lemma TakeKeeps(es: seq<Event>, xs: seq<Item>, redeemed: set<Ticket>, e: Event, c: string, days: int)
    requires Inv(es, State(xs, redeemed), e.now, days) && e.Confirm?
    ensures var won := match Winner(xs, c) case None => {} case Some(t) => {t};
            Inv(es + [e], State(Take(xs, c), redeemed + won), e.now, days)
  {
    hide Issued, Count, WellFormed, FindLive;
    var i, ys := FindLive(xs, c), Take(xs, c);
    TakeWellFormed(xs, c);
    forall t ensures Count(xs, t) == Count(ys, t) + if i < |xs| && xs[i].ticket == t then 1 else 0 {
      TakeCount(xs, c, t);
    }
    forall t ensures Issued(es + [e], t) <==> Issued(es, t) {
      IssuedStep(es, e, t);
    }
    if i < |xs| {
      CountLive(xs, i);
    }
    assert ys != [] ==> ys[0].Stamp? ==> ys[0] == xs[0];
  }

  function LastTime(es: seq<Event>): nat { if es == [] then 0 else es[|es| - 1].now }

  lemma LegalPrefix(es: seq<Event>, k: nat)
    requires LegalRun(es) && k <= |es|
    ensures LegalRun(es[..k]) && (k < |es| ==> LastTime(es[..k]) <= es[k].now)
  {
    hide ValidEvent;
  }

  lemma FreshTicket(es: seq<Event>, k: nat)
    requires LegalRun(es) && k < |es| && es[k].Save?
    ensures !Issued(es[..k], TicketOf(es[k]))
  {
    hide ValidEvent;
  }

  lemma {:induction false} RunInv(es: seq<Event>, days: int)
    requires LegalRun(es) && days >= 1
    ensures Inv(es, After(es, days), LastTime(es), days)
    ensures TextAfter(es, days) == FileLines(After(es, days).items)
  {
    hide Inv, Purge, FileLines, TextStep, Used, Take, Issued, ValidEvent, Winner;
    if es == [] {
      EmptyInv(days);
    } else {
      var k := |es| - 1;
      LegalPrefix(es, k);
      RunInv(es[..k], days);
      FreshAt(es, k);
      assert es[..k] + [es[k]] == es;
      StepKeeps(es[..k], After(es[..k], days), LastTime(es[..k]), es[k], days);
    }
  }

  lemma FreshAt(es: seq<Event>, k: nat)
    requires LegalRun(es) && k < |es|
    ensures ValidEvent(es[k]) && (es[k].Save? ==> !Issued(es[..k], TicketOf(es[k])))
  {
    if es[k].Save? {
      FreshTicket(es, k);
    }
  }

  lemma EmptyInv(days: int)
    ensures Inv([], State([], {}), 0, days) && FileLines([]) == []
  {
    assert forall t :: Count([], t) == 0;
  }

  lemma StepKeeps(es: seq<Event>, s: State, before: nat, e: Event, days: int)
    requires Inv(es, s, before, days) && before <= e.now && days >= 1
    requires ValidEvent(e) && (e.Save? ==> !Issued(es, TicketOf(e)))
    ensures Inv(es + [e], Step(s, e, days), e.now, days)
    ensures TextStep(FileLines(s.items), e, days).0 == FileLines(Step(s, e, days).items)
  {
    hide Purge, FileLines, TextStep, Used, Take, Issued, ValidEvent, Winner, Count, Stamped, WellFormed;
    StepRefines(s, e, days);
    PurgeKeeps(es, s, before, e, days);
    var xs := Purge(s.items, e.now, days, e.junk);
    match e
    case Save(_, _, _, _, _, _) => SaveKeeps(es, xs, s.redeemed, e, days);
    case Confirm(_, body, head, _) => TakeKeeps(es, xs, s.redeemed, e, Used(xs, body, head), days);
  }

  // ---------------------------------------------------------------- the promises

  function AnswerTo(es: seq<Event>, k: nat, days: int): Answer
    requires k < |es|
  {
    TextStep(TextAfter(es[..k], days), es[k], days).1
  }

  /** The save whose cookie confirmation k redeems. */
  ghost predicate Redeems(es: seq<Event>, k: nat, j: nat, days: int)
    requires k < |es|
  {
    && j < k && es[j].Save? && es[k].Confirm?
    && CookieOf(TicketOf(es[j])) in {es[k].body, es[k].head}
    && AnswerTo(es, k, days) == Answer(true, es[j].user, es[j].request + [LF])
    && TicketOf(es[j]) !in After(es[..k], days).redeemed
    && TicketOf(es[j]) in After(es[..k + 1], days).redeemed
  }

  lemma WinnerCounts(xs: seq<Item>, c: string)
    ensures var i := FindLive(xs, c);
            i < |xs| ==> Winner(xs, c) == Some(xs[i].ticket) && Count(xs, xs[i].ticket) > 0
  {
    var i := FindLive(xs, c);
    if i < |xs| {
      CountLive(xs, i);
    }
  }

  /** A successful confirmation gives back the user and the request of an earlier
      save with that cookie, made less than days + 1 days before. */
  lemma RedemptionIsOfASave(es: seq<Event>, k: nat, days: int) returns (j: nat)
    requires LegalRun(es) && days >= 1 && k < |es| && es[k].Confirm? && AnswerTo(es, k, days).found
    ensures Redeems(es, k, j, days)
    ensures 0 <= es[k].now - es[j].now < (days + 1) * DAY
  {
    hide Inv, Purge, FileLines, TextStep, Take, ValidEvent, Winner, Count, Misread, CookieOf, WellFormed;
    var s, e := After(es[..k], days), es[k];
    var before := LastTime(es[..k]);
    LegalPrefix(es, k);
    RunInv(es[..k], days);
    FreshAt(es, k);
    InvParts(es[..k], s, before, days);
    StepRefines(s, e, days);
    PurgeKeeps(es[..k], s, before, e, days);
    PurgeStamps(s.items, before, e.now, days, e.junk);
    var xs := Purge(s.items, e.now, days, e.junk);
    InvParts(es[..k], State(xs, s.redeemed), e.now, days);
    var c := Used(xs, e.body, e.head);
    WinnerCounts(xs, c);
    var t := xs[FindLive(xs, c)].ticket;
    j :| 0 <= j < k && es[..k][j].Save? && TicketOf(es[..k][j]) == t;
    assert es[..k + 1][..k] == es[..k] && es[..k + 1][k] == e;
  }

  lemma InvParts(es: seq<Event>, s: State, now: nat, days: int)
    requires Inv(es, s, now, days)
    ensures WellFormed(s.items) && Stamped(s.items, now, days)
    ensures forall t :: Count(s.items, t) > 0 ==> Issued(es, t) && t !in s.redeemed
  {
    hide Count, WellFormed, Stamped, Issued;
  }

  lemma {:induction false} RedeemedGrows(es: seq<Event>, i: nat, k: nat, days: int)
    requires i <= k <= |es|
    ensures After(es[..i], days).redeemed <= After(es[..k], days).redeemed
    decreases k - i
  {
    hide Purge, Used, Take, Winner;
    if i < k {
      RedeemedGrows(es, i, k - 1, days);
      assert es[..k][..k - 1] == es[..k - 1];
    }
  }

  /** A confirmation with the cookie of a save and no other. */
  predicate ShowsOnly(e: Event, save: Event)
    requires save.Save?
  {
    e.Confirm? && e.body == CookieOf(TicketOf(save)) == e.head
  }

  /** Confirmation m redeems a save with another cookie. */
  ghost predicate RedeemsOther(es: seq<Event>, m: nat, save: Event, days: int)
    requires m < |es| && save.Save?
  {
    exists i: nat :: Redeems(es, m, i, days) && CookieOf(TicketOf(es[i])) != CookieOf(TicketOf(save))
  }

  /** A cookie is redeemed once: shown again, its request is not found, and a later
      confirmation that does find one has found another save, by its own cookie. */
  lemma RedeemedAtMostOnce(es: seq<Event>, k: nat, m: nat, j: nat, days: int)
    requires LegalRun(es) && days >= 1 && k < m < |es| && Redeems(es, k, j, days) && es[m].Confirm?
    ensures AnswerTo(es, m, days).found ==> RedeemsOther(es, m, es[j], days)
    ensures ShowsOnly(es[m], es[j]) ==> !AnswerTo(es, m, days).found
  {
    hide After, AnswerTo, CookieOf, ValidEvent;
    if AnswerTo(es, m, days).found {
      var i := RedemptionIsOfASave(es, m, days);
      RedeemedGrows(es, k + 1, m, days);
      if CookieOf(TicketOf(es[i])) == CookieOf(TicketOf(es[j])) {
        OneSave(es, i, j);
      }
    }
  }

  lemma OneSave(es: seq<Event>, i: nat, j: nat)
    requires LegalRun(es) && i < |es| && j < |es| && es[i].Save? && es[j].Save?
    requires CookieOf(TicketOf(es[i])) == CookieOf(TicketOf(es[j]))
    ensures i == j
  {
    hide CookieOf, ValidEvent;
    CookieInjective(TicketOf(es[i]), TicketOf(es[j]));
  }

  /** What was saved, has not been redeemed and has not expired is in the file. */
  ghost predicate Kept(es: seq<Event>, s: State, now: nat, days: int)
  {
    forall t :: Issued(es, t) && t !in s.redeemed && t.time > now - DAY * days ==> Count(s.items, t) > 0
  }

  lemma StepKept(es: seq<Event>, s: State, before: nat, e: Event, days: int)
    requires Kept(es, s, before, days) && before <= e.now
    ensures Kept(es + [e], Step(s, e, days), e.now, days)
  {
    hide Purge, Used, FindLive, Count, LastOf, Issued;
    var xs, s' := Purge(s.items, e.now, days, e.junk), Step(s, e, days);
    forall t | Issued(es + [e], t) && t !in s'.redeemed && t.time > e.now - DAY * days
      ensures Count(s'.items, t) > 0
    {
      PurgeCount(s.items, e.now, days, e.junk, t);
      IssuedStep(es, e, t);
      match e
      case Save(_, _, _, _, _, _) => AppendCount(xs, TicketOf(e), t);
      case Confirm(_, body, head, _) => TakeCount(xs, Used(xs, body, head), t);
    }
  }

  lemma AppendCount(xs: seq<Item>, u: Ticket, t: Ticket)
    ensures Count(xs + [Live(u)], t) == Count(xs, t) + if t == u then 1 else 0
  {
    TicketsAppend(xs, Live(u));
  }

  lemma EmptyKept(days: int)
    ensures Kept([], State([], {}), 0, days)
  {
  }

  lemma {:induction false} RunKept(es: seq<Event>, days: int)
    requires LegalRun(es)
    ensures Kept(es, After(es, days), LastTime(es), days)
  {
    hide Step, ValidEvent, Count, Kept;
    if es == [] {
      EmptyKept(days);
    } else {
      var k := |es| - 1;
      LegalPrefix(es, k);
      RunKept(es[..k], days);
      assert es[..k] + [es[k]] == es;
      StepKept(es[..k], After(es[..k], days), LastTime(es[..k]), es[k], days);
    }
  }

  /** A saved request is there to be redeemed until it is redeemed or expires. */
  lemma SavedIsRedeemable(es: seq<Event>, k: nat, j: nat, days: int)
    requires LegalRun(es) && days >= 1 && j < k < |es| && es[j].Save? && es[k].Confirm?
    requires es[k].body == CookieOf(TicketOf(es[j]))
    requires TicketOf(es[j]) !in After(es[..k], days).redeemed
    requires es[k].now - es[j].now < days * DAY
    ensures Redeems(es, k, j, days)
  {
    hide Inv, Purge, FileLines, TextStep, Take, ValidEvent, Winner, Misread, CookieOf, WellFormed, LastOf, Count,
         Kept, After;
    var s, e, t := After(es[..k], days), es[k], TicketOf(es[j]);
    LegalPrefix(es, k);
    RunInv(es[..k], days);
    RunKept(es[..k], days);
    FreshAt(es, k);
    InvParts(es[..k], s, LastTime(es[..k]), days);
    StepRefines(s, e, days);
    KeptHas(es, k, j, s, days);
    PurgeCount(s.items, e.now, days, e.junk, t);
    var xs := Purge(s.items, e.now, days, e.junk);
    PurgeKeeps(es[..k], s, LastTime(es[..k]), e, days);
    InvParts(es[..k], State(xs, s.redeemed), e.now, days);
    LiveFound(es, k, j, xs, days);
    WinnerCounts(xs, e.body);
    AfterStep(es, k, days);
  }

  lemma AfterStep(es: seq<Event>, k: nat, days: int)
    requires k < |es|
    ensures After(es[..k + 1], days) == Step(After(es[..k], days), es[k], days)
  {
    hide Step;
    assert es[..k + 1][..k] == es[..k] && es[..k + 1][k] == es[k];
  }

  lemma KeptHas(es: seq<Event>, k: nat, j: nat, s: State, days: int)
    requires LegalRun(es) && j < k < |es| && es[j].Save? && Kept(es[..k], s, LastTime(es[..k]), days)
    requires TicketOf(es[j]) !in s.redeemed && es[k].now - es[j].now < days * DAY
    ensures Count(s.items, TicketOf(es[j])) > 0
  {
    hide Count, ValidEvent;
    assert es[..k][j] == es[j];
    LegalPrefix(es, k);
  }

  /** The first live request under a cookie is the one saved under it. */
  lemma LiveFound(es: seq<Event>, k: nat, j: nat, xs: seq<Item>, days: int)
    requires LegalRun(es) && j < k <= |es| && es[j].Save?
    requires forall t :: Count(xs, t) > 0 ==> Issued(es[..k], t)
    requires Count(xs, TicketOf(es[j])) > 0
    ensures var i := FindLive(xs, CookieOf(TicketOf(es[j])));
            i < |xs| && xs[i].ticket == TicketOf(es[j])
  {
    hide Count, ValidEvent, CookieOf;
    var t := TicketOf(es[j]);
    var i := FindLive(xs, CookieOf(t));
    var m := CountedLive(xs, t);
    WinnerCounts(xs, CookieOf(t));
    var u := xs[i].ticket;
    var n :| 0 <= n < k && es[..k][n].Save? && TicketOf(es[..k][n]) == u;
    CookieInjective(t, u);
  }

  lemma {:induction false} CountedLive(xs: seq<Item>, t: Ticket) returns (i: nat)
    requires Count(xs, t) > 0
    ensures i < |xs| && xs[i] == Live(t)
  {
    if xs[0] == Live(t) {
      i := 0;
    } else {
      i := CountedLive(xs[1..], t);
      i := i + 1;
    }
  }
}
