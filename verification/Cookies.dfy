/** The confirmation-cookie file: requests are saved under a cookie, redeemed by
    overwriting the cookie with zeros, and purged (commands/confirmation.c). */
module Cookies {
  import opened Text
  import opened TextFiles
  import opened LineFiles
  import opened AddressText
  import opened Numbers
  import opened Streams

  const DAY: nat := 86400

  function Zeros(n: nat): (s: string) ensures |s| == n { seq(n, _ => '0') }

  // ---------------------------------------------------------------- saving

  function CookieText(now: nat, pid: nat, serial: nat): string
  {
    Dec(now) + "-" + Dec(pid) + "-" + Dec(serial)
  }

  class CookieMaker {
    const pid: nat
    var counter: nat

    constructor (pid: nat)
      ensures this.pid == pid && counter == 0
    {
      this.pid, counter := pid, 0;
    }

    /** create_conf_cookie */
    method CreateConfCookie(now: nat) returns (cookie: string)
      modifies this
      ensures counter == old(counter) + 1 && cookie == CookieText(now, pid, counter)
    {
      counter := counter + 1;
      cookie := CookieText(now, pid, counter);
    }
  }

  function SavedLine(cookie: string, user: string, request: string): string
  {
    cookie + [BLANK] + user + [BLANK] + request
  }

  /** save_conf_request */
  method SaveConfRequest(f: LineFile, cookie: string, user: string, request: string)
    requires f.Valid() && LF !in cookie && LF !in user && LF !in request
    modifies f
    ensures f.Valid() && f.lines == old(f.lines) + [SavedLine(cookie, user, request)]
  {
    f.Append(SavedLine(cookie, user, request));
  }

  // ---------------------------------------------------------------- redeeming

  /** The buffers a caller passes in, and whether there was a request. */
  datatype Answer = Answer(found: bool, user: string, command: string)

  function Token(l: string): string { WordOf(l + [LF]) }

  /** The first line whose first word is the cookie. */
  function FindCookie(ls: seq<string>, cookie: string): (i: nat)
    ensures i <= |ls|
    ensures i < |ls| ==> Token(ls[i]) == cookie
    ensures forall j :: 0 <= j < i ==> Token(ls[j]) != cookie
  {
    if ls == [] || Token(ls[0]) == cookie then 0 else 1 + FindCookie(ls[1..], cookie)
  }

  lemma WordFits(s: string)
    ensures |WordOf(s)| <= |s|
    ensures s != "" && s[|s| - 1] == LF ==> |WordOf(s)| < |s|
  {
    if s != "" && s[|s| - 1] == LF {
      SkipKeepsEnd(s);
    }
  }

  lemma {:induction false} SkipKeepsEnd(s: string)
    requires s != ""
    ensures var t := SkipSpaces(s); t == "" || t[|t| - 1] == s[|s| - 1]
  {
    if IsSpace(s[0]) && |s| > 1 {
      SkipKeepsEnd(s[1..]);
    } else if IsSpace(s[0]) {
      assert s[1..] == "";
    }
  }

  lemma TokenFits(l: string)
    ensures |Token(l)| <= |l|
  {
    hide WordOf;
    WordFits(l + [LF]);
  }

  /** The cookie overwritten. */
  function ZeroedLine(l: string, n: nat): string
    requires n <= |l|
  {
    Zeros(n) + l[n..]
  }

  /** What follows the cookie of line i and the character after it. */
  function AfterCookie(ls: seq<string>, i: nat, n: nat): string
    requires i < |ls| && n <= |ls[i]|
  {
    (ls[i] + [LF] + Flatten(ls[i + 1..]))[n + 1..]
  }

  function AnswerAt(r: string, command: string): Answer
  {
    var s := SubscriberAt(r);
    if !s.ok then Answer(false, s.name, command)
    else
      var line := NextLine(r[s.length..], command);
      Answer(s.name != "" && line != "", s.name, line)
  }

  function Redeemed(ls: seq<string>, cookie: string): seq<string>
  {
    var i := FindCookie(ls, cookie);
    TokenFits(if i < |ls| then ls[i] else "");
    if i < |ls| then ls[i := ZeroedLine(ls[i], |cookie|)] else ls
  }

  function RedeemAnswer(ls: seq<string>, cookie: string, user: string, command: string): Answer
  {
    var i := FindCookie(ls, cookie);
    TokenFits(if i < |ls| then ls[i] else "");
    if i < |ls| then AnswerAt(AfterCookie(ls, i, |cookie|), command) else Answer(false, user, command)
  }

  ghost predicate NoBlankLine(ls: seq<string>) { forall i :: 0 <= i < |ls| ==> Token(ls[i]) != "" }

  /** The scan for the cookie; pos is behind the line it stops at. */
  method FindLine(f: LineFile, cookie: string) returns (found: bool, line: string, pos: nat, ghost k: nat)
    requires f.Valid()
    ensures k == FindCookie(f.lines, cookie) && (found <==> k < |f.lines|)
    ensures found ==> line == f.lines[k] + [LF] && pos == Offset(f.lines, k) + |line|
  {
    hide Flatten, Offset, WordOf;
    var eof := false;
    found, line, pos, k := false, "", 0, 0;
    OffsetZero(f.lines);
    while !found && !eof
      invariant k <= |f.lines| && (eof ==> k == |f.lines|)
      invariant !found ==> pos == Offset(f.lines, k)
      invariant forall j :: 0 <= j < k ==> Token(f.lines[j]) != cookie
      invariant found ==> k < |f.lines| && line == f.lines[k] + [LF] && Token(f.lines[k]) == cookie
      invariant found ==> pos == Offset(f.lines, k) + |line|
      decreases |f.lines| - k, !eof, !found
    {
      var l, next := f.ReadLine(pos, k);
      if l == "" {
        eof := true;
      } else {
        line, pos := l, next;
        found := WordOf(line) == cookie;
        if !found {
          k := k + 1;
        }
      }
    }
    FirstToken(f.lines, cookie, k);
  }

  /** get_conf_request */
  method GetConfRequest(f: LineFile, cookie: string, user: string, command: string) returns (a: Answer)
    requires f.Valid() && NoBlankLine(f.lines)
    modifies f
    ensures f.Valid() && f.lines == Redeemed(old(f.lines), cookie)
    ensures a == RedeemAnswer(old(f.lines), cookie, user, command)
  {
    hide Flatten, Offset, WordOf, AfterCookie, AnswerAt, FindCookie;
    var found, line, pos, k := FindLine(f, cookie);
    if !found {
      return Answer(false, user, command);
    }
    TokenFits(f.lines[k]);
    ZerosNoLF(|cookie|);
    AfterZeros(f.lines, k, |cookie|);
    f.WriteAt(pos - |line|, Zeros(|cookie|), k);
    a := ReadRequest(f.data, pos - |line| + |cookie| + 1, command);
  }

  /** The user and the command behind the cookie. */
  method ReadRequest(data: string, start: nat, command: string) returns (a: Answer)
    requires start <= |data|
    ensures a == AnswerAt(data[start..], command)
  {
    hide SubscriberAt;
    var s := ExtractSubscriber(data, start);
    if !s.ok {
      return Answer(false, s.name, command);
    }
    var c := command;
    if start + s.length < |data| {
      c := ReadUpTo(data, start + s.length);
    }
    assert data[start..][s.length..] == data[start + s.length..];
    a := Answer(s.name != "" && c != "", s.name, c);
  }

  lemma ZerosNoLF(n: nat)
    ensures LF !in Zeros(n)
  {
  }

  lemma FirstToken(ls: seq<string>, cookie: string, i: nat)
    requires i <= |ls|
    requires i < |ls| ==> Token(ls[i]) == cookie
    requires forall j :: 0 <= j < i ==> Token(ls[j]) != cookie
    ensures FindCookie(ls, cookie) == i
  {
    hide WordOf;
  }

  /** Overwriting the cookie leaves what follows it. */
  lemma AfterZeros(ls: seq<string>, i: nat, n: nat)
    requires i < |ls| && n <= |ls[i]|
    ensures var ls' := ls[i := ZeroedLine(ls[i], n)];
            var at := Offset(ls, i) + n + 1;
            at <= |Flatten(ls')| && Flatten(ls')[at..] == AfterCookie(ls, i, n)
  {
    hide Flatten;
    var ls' := ls[i := ZeroedLine(ls[i], n)];
    assert ls'[..i] == ls[..i] && ls'[i + 1..] == ls[i + 1..];
    LineBytes(ls', i);
    var tail := Flatten(ls[i + 1..]);
    SkipFront(Flatten(ls'), Offset(ls, i), Zeros(n) + ls[i][n..] + [LF] + tail, ls[i] + [LF] + tail, n + 1);
  }

  lemma SkipFront(t: string, p: nat, u: string, v: string, n: nat)
    requires p <= |t| && t[p..] == u && n <= |u| == |v|
    requires forall j :: n <= j < |u| ==> u[j] == v[j]
    ensures p + n <= |t| && t[p + n..] == v[n..]
  {
    assert t[p..][n..] == t[p + n..];
  }

  // ---------------------------------------------------------------- purging

  /** When the file was last purged, and how many lines that is written on. */
  function LastPurge(line: string): (r: (int, nat)) ensures r.1 <= 1
  {
    if '-' in line then (0, 0) else (Atol(line), 1)
  }

  predicate Due(now: int, last: int) { now - last > DAY || now < last }

  /** The lines younger than a time; a line without a word counts as old as the
      one before it. */
  function Younger(ls: seq<string>, number: string, earliest: int): seq<string>
  {
    if ls == [] then []
    else
      var n := if Token(ls[0]) == "" then number else Token(ls[0]);
      (if Atol(n) > earliest then [ls[0]] else []) + Younger(ls[1..], n, earliest)
  }

  /** The file after a purge; junk is what the line buffer holds when the file
      has no first line. */
  function Purged(ls: seq<string>, now: nat, days: int, junk: string): seq<string>
  {
    var (last, skip) := LastPurge(if ls == [] then junk else ls[0] + [LF]);
    if !Due(now, last) then ls
    else [Dec(now)] + Younger(if ls == [] then [] else ls[skip..], "", now - DAY * days)
  }

  /** remove_expired_cookies */
  method RemoveExpiredCookies(f: LineFile, now: nat, days: int, junk: string)
    requires f.Valid()
    modifies f
    ensures f.Valid() && f.lines == Purged(old(f.lines), now, days, junk)
  {
    hide Flatten, Offset, WordOf, Atol, Younger;
    ghost var ls := f.lines;
    OffsetZero(ls);
    var line, pos := f.ReadLine(0, 0);
    ghost var i := if ls == [] then 0 else 1;
    if line == "" {
      line := junk;
    }
    var last := 0;
    if '-' !in line {
      last := Atol(line);
    } else {
      pos, i := 0, 0;
    }
    if now - last > DAY || now < last {
      var earliest := now - DAY * days;
      ghost var start := i;
      var number, eof, text := "", false, Dec(now) + [LF];
      ghost var out := [Dec(now)];
      FlattenOne(Dec(now));
      while !eof
        invariant f.Valid() && f.lines == ls && start <= i <= |ls| && (eof ==> i == |ls|)
        invariant pos == Offset(ls, i)
        invariant text == Flatten(out) && NoLF(out)
        invariant [Dec(now)] + Younger(ls[start..], "", earliest) == out + Younger(ls[i..], number, earliest)
        decreases |ls| - i, !eof
      {
        var l, next := f.ReadLine(pos, i);
        if l == "" {
          eof := true;
        } else {
          YoungerStep(ls, i, number, earliest, out);
          var word := WordOf(l);
          if word != "" {
            number := word;
          }
          if Atol(number) > earliest {
            text := text + l;
            FlattenAppend(out, [ls[i]]);
            FlattenOne(ls[i]);
            out := out + [ls[i]];
          }
          pos, i := next, i + 1;
        }
      }
      YoungerNone(number, earliest);
      assert ls[|ls|..] == [];
      f.data, f.lines := text, out;
    }
  }

  lemma YoungerNone(number: string, earliest: int)
    ensures Younger([], number, earliest) == []
  {
  }

  lemma YoungerStep(ls: seq<string>, i: nat, number: string, earliest: int, out: seq<string>)
    requires i < |ls|
    ensures var n := if Token(ls[i]) == "" then number else Token(ls[i]);
            out + Younger(ls[i..], number, earliest) ==
            (if Atol(n) > earliest then out + [ls[i]] else out) + Younger(ls[i + 1..], n, earliest)
  {
    hide WordOf, Atol;
    assert ls[i..][1..] == ls[i + 1..];
  }

  // ---------------------------------------------------------------- a confirmation

  /** The two tries of do_confirmed_request, after the purge. */
  function Confirmed(ls: seq<string>, body: string, head: string, user: string,
                     command: string): (r: (seq<string>, Answer))
  {
    var a := RedeemAnswer(ls, body, user, command);
    var ls' := Redeemed(ls, body);
    if a.found then (ls', a) else (Redeemed(ls', head), RedeemAnswer(ls', head, a.user, a.command))
  }

  lemma StartsWord(l: string)
    requires l != "" && !IsSpace(l[0])
    ensures Token(l) != ""
  {
  }

  lemma {:induction false} YoungerNoBlank(ls: seq<string>, number: string, earliest: int)
    requires NoBlankLine(ls)
    ensures NoBlankLine(Younger(ls, number, earliest))
  {
    hide WordOf, Atol;
    if ls != [] {
      YoungerNoBlank(ls[1..], Token(ls[0]), earliest);
    }
  }

  lemma PurgedNoBlank(ls: seq<string>, now: nat, days: int, junk: string)
    requires NoBlankLine(ls)
    ensures NoBlankLine(Purged(ls, now, days, junk))
  {
    hide WordOf, Atol, Younger, Dec;
    var (last, skip) := LastPurge(if ls == [] then junk else ls[0] + [LF]);
    YoungerNoBlank(if ls == [] then [] else ls[skip..], "", now - DAY * days);
    assert IsDigit(Dec(now)[0]);
    StartsWord(Dec(now));
  }

  lemma RedeemedNoBlank(ls: seq<string>, cookie: string)
    requires NoBlankLine(ls)
    ensures NoBlankLine(Redeemed(ls, cookie))
  {
    hide WordOf;
    var i := FindCookie(ls, cookie);
    if i < |ls| {
      TokenFits(ls[i]);
      StartsWord(ZeroedLine(ls[i], |cookie|));
    }
  }

  method DoConfirmedRequest(f: LineFile, now: nat, days: int, junk: string, body: string, head: string,
                            user: string, command: string) returns (a: Answer)
    requires f.Valid() && NoBlankLine(f.lines)
    modifies f
    ensures f.Valid()
    ensures (f.lines, a) == Confirmed(Purged(old(f.lines), now, days, junk), body, head, user, command)
  {
    hide Purged, Redeemed, RedeemAnswer, WordOf;
    PurgedNoBlank(f.lines, now, days, junk);
    RedeemedNoBlank(Purged(f.lines, now, days, junk), body);
    RemoveExpiredCookies(f, now, days, junk);
    a := GetConfRequest(f, body, user, command);
    if !a.found {
      a := GetConfRequest(f, head, a.user, a.command);
    }
  }
}
