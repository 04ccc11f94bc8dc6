/** Reading an address and the words after it from a line (lplib/sender.c). */
module AddressText {
  import opened Text

  predicate IsSpace(c: char) { c == ' ' || ('\t' <= c <= '\r') }

  function SkipSpaces(s: string): (r: string)
    ensures |r| <= |s|
  {
    if s != "" && IsSpace(s[0]) then SkipSpaces(s[1..]) else s
  }

  /** Length of the word s starts with. */
  function WordLength(s: string): (n: nat)
    ensures n <= |s| && (n < |s| ==> IsSpace(s[n]))
    ensures forall i :: 0 <= i < n ==> !IsSpace(s[i])
  {
    if s == "" || IsSpace(s[0]) then 0 else 1 + WordLength(s[1..])
  }

  /** sscanf(s, "%s") */
  function WordOf(s: string): string
  {
    var t := SkipSpaces(s);
    t[..WordLength(t)]
  }

  // ---------------------------------------------------------------- extract_address2

  datatype Nesting = Nesting(quote: bool, paren: int, angle: int, square: int, bad: bool)

  const NO_NESTING := Nesting(false, 0, 0, 0, false)

  predicate Open(n: Nesting) { n.quote || n.paren != 0 || n.angle != 0 || n.square != 0 }

  /** The counters after character i. */
  function Advance(n: Nesting, r: string, i: nat): Nesting
    requires i < |r|
  {
    var c := r[i];
    var bad := n.bad || c == '`' || c == '*' || c == '?' || c == '|';
    var quote := if c == '"' && (i == 0 || r[i - 1] != '\\') then !n.quote else n.quote;
    Nesting(quote,
            if quote then n.paren else if c == '(' then n.paren + 1 else if c == ')' then n.paren - 1 else n.paren,
            if quote then n.angle else if c == '<' then n.angle + 1 else if c == '>' then n.angle - 1 else n.angle,
            if quote then n.square else if c == '[' then n.square + 1 else if c == ']' then n.square - 1 else n.square,
            bad)
  }

  predicate Stops(n: Nesting, c: char) { IsSpace(c) && (!Open(n) || c == '\n' || c == '\r') }

  /** How many characters are passed, and the counters then. */
  function Scan(r: string, i: nat, n: Nesting): (k: (nat, Nesting))
    requires i <= |r|
    ensures i <= k.0 <= |r|
    decreases |r| - i
  {
    if i == |r| || r[i] == ',' then (i, n)
    else
      var n' := Advance(n, r, i);
      if Stops(n', r[i]) then (i + 1, n') else Scan(r, i + 1, n')
  }

  /** The address s starts with, or the empty string when there is none. */
  function AddressOf(s: string): (a: string)
    ensures |a| <= |SkipSpaces(s)| <= |s|
  {
    var r := SkipSpaces(s);
    var (k, n) := Scan(r, 0, NO_NESTING);
    if Open(n) || n.bad then ""
    else if k > 0 && IsSpace(r[k - 1]) then r[..k - 1]
    else r[..k]
  }

  method ExtractAddress2(s: string) returns (ok: bool, dest: string)
    ensures dest == AddressOf(s)
    ensures !ok ==> dest == ""
  {
    var p := 0;
    assert s[0..] == s;
    while p < |s| && IsSpace(s[p])
      invariant 0 <= p <= |s| && SkipSpaces(s[p..]) == SkipSpaces(s)
    {
      assert s[p..][1..] == s[p + 1..];
      p := p + 1;
    }
    var r := s[p..];
    assert SkipSpaces(r) == r;
    var i, n, done := 0, NO_NESTING, false;
    while i < |r| && r[i] != ',' && !done
      invariant 0 <= i <= |r|
      invariant Scan(r, 0, NO_NESTING) == if done then (i, n) else Scan(r, i, n)
      decreases |r| - i, !done
    {
      n := Advance(n, r, i);
      done := Stops(n, r[i]);
      i := i + 1;
    }
    if Open(n) || n.bad {
      return false, "";
    }
    var cnt := if i > 0 && IsSpace(r[i - 1]) then i - 1 else i;
    return true, r[..cnt];
  }

  // ---------------------------------------------------------------- plain words

  predicate PlainChar(c: char)
  {
    !IsSpace(c) && c !in ",\"()<>[]`*?|" && c != EOS
  }

  /** An address without quotes, brackets, blanks or pattern characters. */
  predicate PlainAddress(a: string)
  {
    a != "" && a[0] != '#' && forall i :: 0 <= i < |a| ==> PlainChar(a[i])
  }

  predicate PlainWord(w: string)
  {
    w != "" && forall i :: 0 <= i < |w| ==> !IsSpace(w[i]) && w[i] != EOS
  }

  lemma PlainAdvance(n: Nesting, r: string, i: nat)
    requires i < |r| && PlainChar(r[i])
    ensures Advance(n, r, i) == n
  {
  }

  lemma {:induction false} PlainScan(a: string, rest: string, i: nat)
    requires (forall j :: 0 <= j < |a| ==> PlainChar(a[j])) && i <= |a|
    requires rest != "" && IsSpace(rest[0])
    ensures Scan(a + rest, i, NO_NESTING) == (|a| + 1, NO_NESTING)
    decreases |a| - i
  {
    var r := a + rest;
    if i < |a| {
      assert PlainChar(r[i]);
      PlainAdvance(NO_NESTING, r, i);
      PlainScan(a, rest, i + 1);
    } else {
      assert r[i] == rest[0];
    }
  }

  /** A plain address is read up to the blank after it. */
  lemma PlainAddressRead(a: string, rest: string)
    requires PlainAddress(a) && rest != "" && IsSpace(rest[0])
    ensures AddressOf(a + rest) == a && SkipSpaces(a + rest) == a + rest
  {
    assert PlainChar(a[0]) && (a + rest)[0] == a[0];
    PlainScan(a, rest, 0);
    assert (a + rest)[|a|] == rest[0];
    assert (a + rest)[..|a|] == a;
  }

  lemma {:induction false} WordLengthIs(w: string, rest: string)
    requires forall i :: 0 <= i < |w| ==> !IsSpace(w[i])
    requires rest == "" || IsSpace(rest[0])
    ensures WordLength(w + rest) == |w|
  {
    if w != "" {
      assert (w + rest)[1..] == w[1..] + rest;
      WordLengthIs(w[1..], rest);
    } else {
      assert w + rest == rest;
    }
  }

  lemma PlainWordRead(w: string, rest: string)
    requires PlainWord(w) && (rest == "" || IsSpace(rest[0]))
    ensures WordOf([BLANK] + w + rest) == w
  {
    var t := w + rest;
    assert ([BLANK] + w + rest)[1..] == t;
    assert SkipSpaces([BLANK] + w + rest) == SkipSpaces(t);
    assert t[0] == w[0];
    WordLengthIs(w, rest);
    assert t[..|w|] == w;
  }

  lemma WordAtStart(w: string, rest: string)
    requires PlainWord(w) && (rest == "" || IsSpace(rest[0]))
    ensures WordOf(w + rest) == w
  {
    var t := w + rest;
    assert t[0] == w[0];
    WordLengthIs(w, rest);
    assert t[..|w|] == w;
  }
}
