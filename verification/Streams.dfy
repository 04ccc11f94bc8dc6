/** Reading a text from a position on: fgets, and extract_subscriber
    (lplib/sender.c). */
module Streams {
  import opened Text
  import opened AddressText

  /** fgets into a buffer: up to the newline, or nothing at the end of the file. */
  function NextLine(r: string, was: string): string
  {
    if r == "" then was
    else if IndexOf(r, LF) < |r| then r[..IndexOf(r, LF) + 1] else r
  }

  method ReadUpTo(data: string, pos: nat) returns (line: string)
    requires pos < |data|
    ensures line == NextLine(data[pos..], "")
  {
    ghost var r := data[pos..];
    line := "";
    while pos + |line| < |data| && (line == "" || line[|line| - 1] != LF)
      invariant |line| <= |r| && line == r[..|line|]
      invariant LF !in line || (line[|line| - 1] == LF && LF !in line[..|line| - 1])
      decreases |r| - |line|
    {
      line := line + [data[pos + |line|]];
    }
    if LF in line {
      IndexOfUnique(r, LF, |line| - 1);
    } else {
      assert line == r;
      IndexOfAbsent(r, LF);
    }
  }

  // ---------------------------------------------------------------- extract_subscriber

  datatype Reading = Reading(length: nat, counters: Nesting, stopped: bool)

  /** Reading from character i on. */
  function ReadTo(r: string, i: nat, n: Nesting): (k: Reading)
    requires i <= |r|
    ensures i <= k.length <= |r| && (k.stopped ==> i < k.length)
    decreases |r| - i
  {
    if i == |r| then Reading(i, n, false)
    else
      var n' := Advance(n, r, i);
      if Stops(n', r[i]) then Reading(i + 1, n', true) else ReadTo(r, i + 1, n')
  }

  datatype Subscriber = Subscriber(ok: bool, name: string, length: nat)

  /** What extract_subscriber makes of the text from the file position on; the
      character that ends the name is read too. */
  function SubscriberAt(r: string): (s: Subscriber)
    ensures s.length <= |r|
  {
    var k := ReadTo(r, 0, NO_NESTING);
    Subscriber(!Open(k.counters) && !k.counters.bad, if k.stopped then r[..k.length - 1] else r, k.length)
  }

  method ExtractSubscriber(data: string, pos: nat) returns (s: Subscriber)
    requires pos <= |data|
    ensures s == SubscriberAt(data[pos..])
  {
    hide Advance;
    var r := data[pos..];
    var i, n, done := 0, NO_NESTING, false;
    while i < |r| && !done
      invariant 0 <= i <= |r| && (done ==> i > 0)
      invariant ReadTo(r, 0, NO_NESTING) == if done then Reading(i, n, true) else ReadTo(r, i, n)
      decreases |r| - i, !done
    {
      n := Advance(n, r, i);
      done := Stops(n, r[i]);
      i := i + 1;
    }
    s := Subscriber(!Open(n) && !n.bad, if done then r[..i - 1] else r[..i], i);
  }

  /** extract_subscriber reads the address back. */
  predicate Readable(user: string)
  {
    user != "" && LF !in user && SubscriberAt(user + [BLANK]) == Subscriber(true, user, |user| + 1)
  }

  lemma {:induction false} ReadMore(r: string, t: string, i: nat, n: Nesting)
    requires i <= |r| && ReadTo(r, i, n).stopped
    ensures ReadTo(r + t, i, n) == ReadTo(r, i, n)
    decreases |r| - i
  {
    hide Stops;
    assert Advance(n, r + t, i) == Advance(n, r, i) && (r + t)[i] == r[i];
    var n' := Advance(n, r, i);
    if !Stops(n', r[i]) {
      ReadMore(r, t, i + 1, n');
    }
  }

  /** A readable address is read up to the blank behind it. */
  lemma ReadUser(user: string, rest: string)
    requires Readable(user)
    ensures SubscriberAt(user + [BLANK] + rest) == Subscriber(true, user, |user| + 1)
  {
    hide ReadTo;
    var r := user + [BLANK];
    assert ReadTo(r, 0, NO_NESTING).stopped;
    ReadMore(r, rest, 0, NO_NESTING);
    assert (r + rest)[..|user|] == user;
  }
}
