/** The cookie file as a list of stamps, live requests and spent requests: what
    redeeming and purging do to it. */
module CookieLaws {
  import opened Text
  import opened TextFiles
  import opened AddressText
  import opened Numbers
  import opened Streams
  import opened Cookies

  datatype Ticket = Ticket(time: nat, pid: nat, serial: nat, user: string, request: string)
  datatype Item = Stamp(time: nat) | Live(ticket: Ticket) | Spent(ticket: Ticket)

  function CookieOf(t: Ticket): string { CookieText(t.time, t.pid, t.serial) }

  function ItemLine(x: Item): string
  {
    match x
    case Stamp(n) => Dec(n)
    case Live(t) => SavedLine(CookieOf(t), t.user, t.request)
    case Spent(t) => SavedLine(Zeros(|CookieOf(t)|), t.user, t.request)
  }

  function FileLines(xs: seq<Item>): (ls: seq<string>)
    ensures |ls| == |xs| && forall i :: 0 <= i < |ls| ==> ls[i] == ItemLine(xs[i])
  {
    seq(|xs|, i requires 0 <= i < |xs| => ItemLine(xs[i]))
  }

  predicate ValidTicket(t: Ticket) { Readable(t.user) && LF !in t.request }

  ghost predicate WellFormed(xs: seq<Item>)
  {
    && (forall i :: 0 <= i < |xs| && !xs[i].Stamp? ==> ValidTicket(xs[i].ticket))
    && (forall i :: 0 < i < |xs| ==> !xs[i].Stamp?)
  }

  // ---------------------------------------------------------------- cookies

  lemma {:induction false} AtoiZeros(n: nat, rest: string)
    requires rest == "" || !IsDigit(rest[0])
    ensures AtoiFrom(Zeros(n) + rest, 0) == 0
  {
    var s := Zeros(n) + rest;
    if n > 0 {
      assert s[1..] == Zeros(n - 1) + rest;
      AtoiZeros(n - 1, rest);
    } else {
      assert s == rest;
    }
  }

  lemma AtolZeros(n: nat, rest: string)
    requires n > 0 && (rest == "" || !IsDigit(rest[0]))
    ensures Atol(Zeros(n) + rest) == 0
  {
    hide AtoiFrom;
    AtoiZeros(n, rest);
    var s := Zeros(n) + rest;
    assert s[0] == '0';
  }

  /** The two numbers around the first dash. */
  lemma SplitDash(a: string, b: string, c: string, d: string)
    requires '-' !in a && '-' !in c && a + "-" + b == c + "-" + d
    ensures a == c && b == d
  {
    IndexOfIn(a, '-', b);
    IndexOfIn(c, '-', d);
    var s := a + "-" + b;
    assert a == s[..|a|] && c == s[..|c|];
    assert b == s[|a| + 1..] && d == s[|c| + 1..];
  }

  lemma DecInjective(m: nat, n: nat)
    requires Dec(m) == Dec(n)
    ensures m == n
  {
    AtoiDec(m);
    AtoiDec(n);
  }

  /** Cookies are different when the time, the process or the count is. */
  lemma CookieInjective(t: Ticket, u: Ticket)
    requires CookieOf(t) == CookieOf(u)
    ensures t.time == u.time && t.pid == u.pid && t.serial == u.serial
  {
    hide Dec;
    DecDigits(t.time);
    DecDigits(u.time);
    DecDigits(t.pid);
    DecDigits(u.pid);
    assert CookieOf(t) == Dec(t.time) + "-" + (Dec(t.pid) + "-" + Dec(t.serial));
    assert CookieOf(u) == Dec(u.time) + "-" + (Dec(u.pid) + "-" + Dec(u.serial));
    SplitDash(Dec(t.time), Dec(t.pid) + "-" + Dec(t.serial), Dec(u.time), Dec(u.pid) + "-" + Dec(u.serial));
    SplitDash(Dec(t.pid), Dec(t.serial), Dec(u.pid), Dec(u.serial));
    DecInjective(t.time, u.time);
    DecInjective(t.pid, u.pid);
    DecInjective(t.serial, u.serial);
  }

  predicate CookieChar(c: char) { IsDigit(c) || c == '-' }

  lemma CookieShape(t: Ticket)
    ensures var c := CookieOf(t); |c| >= 5 && '-' in c && forall i :: 0 <= i < |c| ==> CookieChar(c[i])
  {
    hide Dec;
    var c := CookieOf(t);
    assert c[|Dec(t.time)|] == '-';
  }

  // ---------------------------------------------------------------- first words

  function TokenOf(x: Item): string
  {
    match x
    case Stamp(n) => Dec(n)
    case Live(t) => CookieOf(t)
    case Spent(t) => Zeros(|CookieOf(t)|)
  }

  lemma TokenIs(x: Item)
    ensures Token(ItemLine(x)) == TokenOf(x) != ""
  {
    hide WordOf, Dec, CookieText;
    match x
    case Stamp(n) =>
      DecDigits(n);
      assert forall i :: 0 <= i < |Dec(n)| ==> IsDigit(Dec(n)[i]);
      WordAtStart(Dec(n), [LF]);
    case Live(t) =>
      var c := CookieOf(t);
      CookieShape(t);
      assert forall i :: 0 <= i < |c| ==> CookieChar(c[i]);
      SavedToken(c, t.user, t.request);
    case Spent(t) =>
      CookieShape(t);
      SavedToken(Zeros(|CookieOf(t)|), t.user, t.request);
  }

  lemma SavedToken(c: string, user: string, request: string)
    requires PlainWord(c)
    ensures Token(SavedLine(c, user, request)) == c
  {
    hide WordOf;
    var rest := [BLANK] + user + [BLANK] + request + [LF];
    assert SavedLine(c, user, request) + [LF] == c + rest;
    WordAtStart(c, rest);
  }

  lemma FileNoBlank(xs: seq<Item>)
    ensures NoBlankLine(FileLines(xs))
  {
    hide Token, ItemLine, TokenOf;
    forall i | 0 <= i < |xs| ensures Token(FileLines(xs)[i]) != "" {
      TokenIs(xs[i]);
    }
  }

  // ---------------------------------------------------------------- reading the request back

  lemma ReadAnswer(user: string, request: string, rest: string, command: string)
    requires Readable(user) && LF !in request
    ensures AnswerAt(user + [BLANK] + request + [LF] + rest, command) == Answer(true, user, request + [LF])
  {
    hide SubscriberAt;
    var tail := request + [LF] + rest;
    var r := user + [BLANK] + tail;
    assert r == user + [BLANK] + request + [LF] + rest;
    ReadUser(user, tail);
    assert r[|user| + 1..] == tail;
    IndexOfIn(request, LF, rest);
    assert tail[..|request| + 1] == request + [LF];
  }

  /** A line that the file ends in and that has a user only, or a line without a user,
      answers nothing. */
  lemma NothingToAnswer(user: string, rest: string)
    requires PlainAddress(user)
    ensures !AnswerAt(user + [LF], "").found && !AnswerAt([BLANK] + rest, "").found
  {
    hide SubscriberAt;
    var r, q := user + [LF], [BLANK] + rest;
    assert SubscriberAt(r) == Subscriber(true, user, |user| + 1) by {
      ReadUserOnly(user);
    }
    assert r[|user| + 1..] == "";
    assert SubscriberAt(q) == Subscriber(true, "", 1) by {
      ReadNobody(rest);
    }
  }

  lemma ReadUserOnly(user: string)
    requires PlainAddress(user)
    ensures SubscriberAt(user + [LF]) == Subscriber(true, user, |user| + 1)
  {
    ReadPlainTo(user, 0);
    assert (user + [LF])[..|user|] == user;
  }

  lemma {:induction false} ReadPlainTo(user: string, i: nat)
    requires PlainAddress(user) && i <= |user|
    ensures ReadTo(user + [LF], i, NO_NESTING) == Reading(|user| + 1, NO_NESTING, true)
    decreases |user| - i
  {
    var r := user + [LF];
    if i < |user| {
      assert PlainChar(r[i]);
      PlainAdvance(NO_NESTING, r, i);
      ReadPlainTo(user, i + 1);
    } else {
      assert Advance(NO_NESTING, r, i) == NO_NESTING;
    }
  }

  lemma ReadNobody(rest: string)
    ensures SubscriberAt([BLANK] + rest) == Subscriber(true, "", 1)
  {
    var q := [BLANK] + rest;
    assert Advance(NO_NESTING, q, 0) == NO_NESTING;
    assert ReadTo(q, 0, NO_NESTING) == Reading(1, NO_NESTING, true);
    assert q[..0] == "";
  }

  // ---------------------------------------------------------------- redeeming

  /** A presented cookie that is the text of a purge time, or of a spent cookie. */
  predicate Misread(c: string)
  {
    (AllDigits(c) && c == Dec(Atoi(c))) || (|c| >= 5 && c == Zeros(|c|))
  }

  function FindLive(xs: seq<Item>, c: string): (i: nat)
    ensures i <= |xs|
    ensures i < |xs| ==> xs[i].Live? && CookieOf(xs[i].ticket) == c
    ensures forall j :: 0 <= j < i && xs[j].Live? ==> CookieOf(xs[j].ticket) != c
  {
    if xs == [] || (xs[0].Live? && CookieOf(xs[0].ticket) == c) then 0 else 1 + FindLive(xs[1..], c)
  }

  function Take(xs: seq<Item>, c: string): seq<Item>
  {
    var i := FindLive(xs, c);
    if i < |xs| then xs[i := Spent(xs[i].ticket)] else xs
  }

  function TakeAnswer(xs: seq<Item>, c: string, user: string, command: string): Answer
  {
    var i := FindLive(xs, c);
    if i < |xs| then Answer(true, xs[i].ticket.user, xs[i].ticket.request + [LF]) else Answer(false, user, command)
  }

  lemma OnlyLiveMatches(x: Item, c: string)
    requires !Misread(c)
    ensures TokenOf(x) == c <==> x.Live? && CookieOf(x.ticket) == c
  {
    hide Dec, CookieText;
    match x
    case Stamp(n) =>
      DecDigits(n);
      AtoiDec(n);
    case Live(t) =>
    case Spent(t) => CookieShape(t);
  }

  lemma SameFind(xs: seq<Item>, c: string)
    requires !Misread(c)
    ensures FindCookie(FileLines(xs), c) == FindLive(xs, c)
  {
    hide Token, ItemLine, TokenOf, Misread, CookieOf;
    var ls, i := FileLines(xs), FindLive(xs, c);
    forall j | 0 <= j < |xs| ensures Token(ls[j]) == c <==> xs[j].Live? && CookieOf(xs[j].ticket) == c {
      TokenIs(xs[j]);
      OnlyLiveMatches(xs[j], c);
    }
    FirstToken(ls, c, i);
  }

  lemma SpentLine(t: Ticket)
    ensures var c := CookieOf(t); var l := ItemLine(Live(t));
            |c| <= |l| && ZeroedLine(l, |c|) == ItemLine(Spent(t))
            && (l + [LF])[|c| + 1..] == t.user + [BLANK] + t.request + [LF]
  {
    hide CookieText;
    var c := CookieOf(t);
    assert ItemLine(Live(t)) == c + ([BLANK] + t.user + [BLANK] + t.request);
  }

  /** Unless the cookie is misread, redeeming it turns its live request into a
      spent one and gives that request back; else nothing happens. */
  lemma RedeemIsTake(xs: seq<Item>, c: string, user: string, command: string)
    requires WellFormed(xs) && !Misread(c)
    ensures Redeemed(FileLines(xs), c) == FileLines(Take(xs, c))
    ensures RedeemAnswer(FileLines(xs), c, user, command) == TakeAnswer(xs, c, user, command)
  {
    hide ItemLine, Flatten, AnswerAt, CookieOf, Readable, Misread;
    var ls, i := FileLines(xs), FindLive(xs, c);
    SameFind(xs, c);
    if i < |xs| {
      var t := xs[i].ticket;
      SpentLine(t);
      var tail := Flatten(ls[i + 1..]);
      RestOfLine(ls[i], |c|, tail);
      ReadAnswer(t.user, t.request, tail, command);
    }
  }

  lemma RestOfLine(l: string, n: nat, tail: string)
    requires n <= |l|
    ensures (l + [LF] + tail)[n + 1..] == (l + [LF])[n + 1..] + tail
  {
  }

  /** Redeeming changes at most the bytes of one cookie, whatever the file. */
  lemma RedeemChangesOneCookie(ls: seq<string>, c: string)
    ensures var ls' := Redeemed(ls, c); var i := FindCookie(ls, c);
            && |Flatten(ls')| == |Flatten(ls)| && |ls'| == |ls|
            && (forall j :: 0 <= j < |ls| && j != i ==> ls'[j] == ls[j])
            && (i < |ls| ==> |ls'[i]| == |ls[i]| && |c| <= |ls[i]| && ls'[i][|c|..] == ls[i][|c|..])
  {
    hide Flatten, WordOf;
    var i := FindCookie(ls, c);
    if i < |ls| {
      TokenFits(ls[i]);
      var l := ZeroedLine(ls[i], |c|);
      FlattenAround(ls, i);
      FlattenAround(ls[i := l], i);
      assert ls[i := l][..i] == ls[..i] && ls[i := l][i + 1..] == ls[i + 1..];
      assert l[|c|..] == ls[i][|c|..];
    }
  }

  // ---------------------------------------------------------------- cookies that are misread

  /** Redeeming does what it should on this file. */
  ghost predicate Faithful(xs: seq<Item>, c: string)
  {
    && Redeemed(FileLines(xs), c) == FileLines(Take(xs, c))
    && RedeemAnswer(FileLines(xs), c, "", "") == TakeAnswer(xs, c, "", "")
  }

  function Number(k: nat): (n: nat)
    requires k > 0
    ensures |Dec(n)| == k && n > 0
  {
    if k == 1 then 1 else 10 * Number(k - 1)
  }

  const A_TICKET: Ticket := Ticket(1, 1, 1, "u", "r")

  lemma SampleReadable()
    ensures Readable("u") && ValidTicket(A_TICKET) && ItemLine(Live(A_TICKET)) == "1-1-1 u r"
  {
    assert ReadTo("u ", 2, NO_NESTING) == Reading(2, NO_NESTING, false);
    assert ReadTo("u ", 1, NO_NESTING) == Reading(2, NO_NESTING, true);
    assert ReadTo("u ", 0, NO_NESTING) == Reading(2, NO_NESTING, true);
    assert "u" + [BLANK] == "u ";
    assert Dec(1) == "1";
  }

  lemma SampleCookieReadable()
    ensures Readable("1-1-1")
  {
    var r := "1-1-1 ";
    assert ReadTo(r, 5, NO_NESTING) == Reading(6, NO_NESTING, true);
    assert ReadTo(r, 4, NO_NESTING) == Reading(6, NO_NESTING, true);
    assert ReadTo(r, 3, NO_NESTING) == Reading(6, NO_NESTING, true);
    assert ReadTo(r, 2, NO_NESTING) == Reading(6, NO_NESTING, true);
    assert ReadTo(r, 1, NO_NESTING) == Reading(6, NO_NESTING, true);
    assert "1-1-1" + [BLANK] == r;
  }

  /** Presenting the time of the last purge redeems the line below it. */
  lemma StampMisread(n: nat)
    ensures var xs := [Stamp(n), Live(A_TICKET)]; WellFormed(xs) && !Faithful(xs, Dec(n))
  {
    hide Dec, Atoi, AnswerAt, Readable, CookieText, ValidTicket;
    var xs, c := [Stamp(n), Live(A_TICKET)], Dec(n);
    var ls := FileLines(xs);
    SampleReadable();
    SampleCookieReadable();
    TokenIs(xs[0]);
    FirstToken(ls, c, 0);
    FlattenOne(ls[1]);
    assert ls[1..] == [ls[1]];
    assert AfterCookie(ls, 0, |c|) == "1-1-1 u r" + [LF];
    assert "1-1-1 u r" + [LF] == "1-1-1" + [BLANK] + "u r" + [LF] + "";
    ReadAnswer("1-1-1", "u r", "", "");
    DecDigits(n);
    CookieShape(A_TICKET);
    assert FindLive(xs, c) == |xs|;
  }

  /** Presenting zeros redeems a spent cookie of that length once more. */
  lemma SpentMisread(k: nat)
    requires k >= 5
    ensures var xs := [Spent(Ticket(Number(k - 4), 1, 1, "u", "r"))]; WellFormed(xs) && !Faithful(xs, Zeros(k))
  {
    hide AnswerAt, Readable;
    var t, c := Ticket(Number(k - 4), 1, 1, "u", "r"), Zeros(k);
    var xs := [Spent(t)];
    var ls := FileLines(xs);
    SampleReadable();
    assert |CookieOf(t)| == k by {
      assert Dec(1) == "1";
    }
    TokenIs(xs[0]);
    FirstToken(ls, c, 0);
    assert ls[1..] == [];
    SpentRest(c, "u", "r");
    assert AfterCookie(ls, 0, |c|) == "u" + [BLANK] + "r" + [LF] + "";
    ReadAnswer("u", "r", "", "");
    assert FindLive(xs, c) == |xs|;
  }

  lemma SpentRest(c: string, user: string, request: string)
    ensures (SavedLine(c, user, request) + [LF] + "")[|c| + 1..] == user + [BLANK] + request + [LF] + ""
  {
    assert SavedLine(c, user, request) + [LF] + "" == c + [BLANK] + (user + [BLANK] + request + [LF]);
  }

  /** Redeeming does what it should on every file exactly when the cookie is not
      misread; a cookie with a dash in it never is. */
  lemma FaithfulIffNotMisread(c: string)
    ensures (forall xs :: WellFormed(xs) ==> Faithful(xs, c)) <==> !Misread(c)
    ensures '-' in c ==> !Misread(c)
  {
    hide Dec, WellFormed, Faithful, Atoi, Number;
    if !Misread(c) {
      forall xs | WellFormed(xs) ensures Faithful(xs, c) {
        FaithfulUnlessMisread(xs, c);
      }
    } else if AllDigits(c) && c == Dec(Atoi(c)) {
      StampMisread(Atoi(c));
    } else {
      SpentMisread(|c|);
    }
  }

  lemma FaithfulUnlessMisread(xs: seq<Item>, c: string)
    requires WellFormed(xs) && !Misread(c)
    ensures Faithful(xs, c)
  {
    hide Redeemed, RedeemAnswer, Take, TakeAnswer, Misread;
    RedeemIsTake(xs, c, "", "");
  }
}
