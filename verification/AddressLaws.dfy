/** What counts as an address: groups in quotation marks or brackets, what ends an
    address, and what spoils it (extract_address2 in lplib/sender.c). */
module AddressLaws {
  import opened AddressText

  /** The counters inside a group that has just been opened. */
  function Opened(o: char): Nesting
  {
    Nesting(o == '"', if o == '(' then 1 else 0, if o == '<' then 1 else 0, if o == '[' then 1 else 0, false)
  }

  predicate Group(o: char, c: char)
  {
    (o == '"' && c == '"') || (o == '(' && c == ')') || (o == '<' && c == '>') || (o == '[' && c == ']')
  }

  predicate Bracket(c: char) { c == '(' || c == ')' || c == '<' || c == '>' || c == '[' || c == ']' }

  predicate Opener(o: char) { o == '"' || o == '(' || o == '<' || o == '[' }

  predicate Spoils(c: char) { c == '`' || c == '*' || c == '?' || c == '|' }

  /** What may stand inside: in quotation marks also brackets, and marks behind a
      backslash. */
  predicate Inside(o: char, q: string)
  {
    && (forall k :: 0 <= k < |q| ==> !Spoils(q[k]) && q[k] != ',' && q[k] != '\n' && q[k] != '\r')
    && (o != '"' ==> forall k :: 0 <= k < |q| ==> !Bracket(q[k]) && q[k] != '"')
    && (o == '"' ==> (forall k :: 0 <= k < |q| && q[k] == '"' ==> k > 0 && q[k - 1] == '\\') &&
                     (q != "" ==> q[|q| - 1] != '\\'))
  }

  predicate AllPlain(a: string) { forall k :: 0 <= k < |a| ==> PlainChar(a[k]) }

  predicate At(r: string, i: nat, s: string) { i + |s| <= |r| && r[i..i + |s|] == s }

  lemma CharAt(r: string, i: nat, s: string, k: nat)
    requires At(r, i, s) && k < |s|
    ensures r[i + k] == s[k]
  {
    assert r[i..i + |s|][k] == s[k];
  }

  // ---------------------------------------------------------------- the scan

  lemma Step(r: string, i: nat, n: Nesting)
    requires i < |r| && r[i] != ',' && !Stops(Advance(n, r, i), r[i])
    ensures Scan(r, i, n) == Scan(r, i + 1, Advance(n, r, i))
  {
  }

  lemma {:induction false} PassPlain(r: string, at: nat, a: string, k: nat, n: Nesting)
    requires AllPlain(a) && At(r, at, a) && k <= |a|
    ensures Scan(r, at, n) == Scan(r, at + k, n)
  {
    hide Scan, Advance, At;
    if k > 0 {
      PassPlain(r, at, a, k - 1, n);
      CharAt(r, at, a, k - 1);
      var i := at + k - 1;
      InBounds(r, at, a);
      assert PlainChar(a[k - 1]);
      PlainAdvance(n, r, i);
      Step(r, i, n);
    }
  }

  lemma InBounds(r: string, i: nat, s: string)
    requires At(r, i, s)
    ensures i + |s| <= |r|
  {
  }

  lemma {:induction false} PassInside(r: string, o: char, q: string, at: nat, k: nat)
    requires Opener(o) && Inside(o, q) && k <= |q| && 0 < at && At(r, at, q)
    ensures Scan(r, at, Opened(o)) == Scan(r, at + k, Opened(o))
  {
    hide Scan, At;
    if k > 0 {
      PassInside(r, o, q, at, k - 1);
      var i := at + k - 1;
      InBounds(r, at, q);
      CharAt(r, at, q, k - 1);
      if k > 1 {
        CharAt(r, at, q, k - 2);
      }
      InsideStays(r, o, i);
      Step(r, i, Opened(o));
    }
  }

  lemma InsideStays(r: string, o: char, i: nat)
    requires 0 < i < |r| && !Spoils(r[i]) && (o != '"' ==> !Bracket(r[i]) && r[i] != '"')
    requires o == '"' && r[i] == '"' ==> r[i - 1] == '\\'
    ensures Advance(Opened(o), r, i) == Opened(o)
  {
  }

  /** Past a group: its mark opens it, its mark closes it. */
  lemma PassGroup(r: string, a: string, o: char, q: string, c: char)
    requires AllPlain(a) && Group(o, c) && Inside(o, q) && (a != "" ==> a[|a| - 1] != '\\')
    requires At(r, 0, a) && |a| < |r| && r[|a|] == o
    requires At(r, |a| + 1, q) && |a| + 1 + |q| < |r| && r[|a| + 1 + |q|] == c
    ensures Scan(r, 0, NO_NESTING) == Scan(r, |a| + 1 + |q|, Opened(o)) == Scan(r, |a| + |q| + 2, NO_NESTING)
  {
    hide Scan, Inside, AllPlain, At, Advance;
    var at := |a| + 1;
    PassPlain(r, 0, a, |a|, NO_NESTING);
    if a != "" {
      CharAt(r, 0, a, |a| - 1);
    }
    OpensAt(r, |a|, o);
    PassInside(r, o, q, at, |q|);
    if q != "" {
      CharAt(r, at, q, |q| - 1);
    }
    ClosesAt(r, o, q, c, at);
  }

  lemma OpensAt(r: string, i: nat, o: char)
    requires Opener(o) && i < |r| && r[i] == o
    requires i > 0 ==> r[i - 1] != '\\'
    ensures Scan(r, i, NO_NESTING) == Scan(r, i + 1, Opened(o))
  {
    hide Scan;
    assert Advance(NO_NESTING, r, i) == Opened(o);
    Step(r, i, NO_NESTING);
  }

  lemma ClosesAt(r: string, o: char, q: string, c: char, at: nat)
    requires Group(o, c) && Inside(o, q) && 0 < at && at + |q| < |r| && r[at - 1] == o && r[at + |q|] == c
    requires q != "" ==> r[at + |q| - 1] == q[|q| - 1]
    ensures Scan(r, at + |q|, Opened(o)) == Scan(r, at + |q| + 1, NO_NESTING)
  {
    hide Scan;
    var i := at + |q|;
    assert o == '"' ==> r[i - 1] != '\\';
    assert Advance(Opened(o), r, i) == NO_NESTING;
    Step(r, i, Opened(o));
  }

  // ---------------------------------------------------------------- addresses

  lemma SpaceEnds(r: string, i: nat)
    requires i < |r| && IsSpace(r[i])
    ensures Scan(r, i, NO_NESTING) == (i + 1, NO_NESTING)
  {
  }

  /** An address with a group, between plain parts or not, is read to the blank behind
      it; blanks inside the group do not end it. */
  lemma GroupRead(a: string, o: char, q: string, c: char, b: string, rest: string)
    requires AllPlain(a) && Group(o, c) && Inside(o, q) && AllPlain(b) && (a != "" ==> a[|a| - 1] != '\\')
    requires rest != "" && IsSpace(rest[0])
    ensures var t := a + [o] + q + [c] + b; AddressOf(t + rest) == t
  {
    hide Scan, Inside, At;
    var t := a + [o] + q + [c] + b;
    var r := t + rest;
    GroupPlaces(a, o, q, c, b, rest);
    PassGroup(r, a, o, q, c);
    PassPlain(r, |a| + |q| + 2, b, |b|, NO_NESTING);
    assert r[|t|] == rest[0];
    SpaceEnds(r, |t|);
    NoSpaceBefore(a, o, r);
    assert r[..|t|] == t;
  }

  lemma GroupPlaces(a: string, o: char, q: string, c: char, b: string, rest: string)
    ensures var r := a + [o] + q + [c] + b + rest;
            && At(r, 0, a) && r[|a|] == o && At(r, |a| + 1, q) && r[|a| + 1 + |q|] == c && At(r, |a| + |q| + 2, b)
  {
    var r := a + [o] + q + [c] + b + rest;
    assert r[0..|a|] == a && r[|a| + 1..|a| + 1 + |q|] == q && r[|a| + |q| + 2..|a| + |q| + 2 + |b|] == b;
  }

  /** A group that is not closed on its line is no address. */
  lemma UnclosedIsNone(a: string, o: char, q: string, rest: string)
    requires AllPlain(a) && Opener(o) && Inside(o, q)
    requires (a != "" ==> a[|a| - 1] != '\\') && (rest == "" || rest[0] == '\n' || rest[0] == ',')
    ensures AddressOf(a + [o] + q + rest) == ""
  {
    hide Scan, Inside, At, AllPlain;
    var r := a + [o] + q + rest;
    var at := |a| + 1;
    assert r[0..|a|] == a && r[at..at + |q|] == q;
    assert At(r, 0, a) && At(r, at, q) by {
      Slices(r, a, q, at);
    }
    PassPlain(r, 0, a, |a|, NO_NESTING);
    assert a != "" ==> r[|a| - 1] == a[|a| - 1];
    OpensAt(r, |a|, o);
    PassInside(r, o, q, at, |q|);
    assert rest != "" ==> r[at + |q|] == rest[0];
    EndsOpen(r, at + |q|, o);
    NoSpaceBefore(a, o, r);
  }

  lemma Slices(r: string, a: string, q: string, at: nat)
    requires |a| <= |r| && r[0..|a|] == a && at + |q| <= |r| && r[at..at + |q|] == q
    ensures At(r, 0, a) && At(r, at, q)
  {
  }

  lemma EndsOpen(r: string, i: nat, o: char)
    requires Opener(o) && i <= |r| && (i < |r| ==> r[i] == '\n' || r[i] == ',')
    ensures Open(Scan(r, i, Opened(o)).1)
  {
  }

  lemma {:induction false} SpoiltStays(r: string, i: nat, n: Nesting)
    requires i <= |r| && n.bad
    ensures Scan(r, i, n).1.bad
    decreases |r| - i
  {
    if i < |r| && r[i] != ',' && !Stops(Advance(n, r, i), r[i]) {
      SpoiltStays(r, i + 1, Advance(n, r, i));
    }
  }

  /** A pattern character spoils an address. */
  lemma SpoiltIsNone(a: string, x: char, rest: string)
    requires AllPlain(a) && Spoils(x)
    ensures AddressOf(a + [x] + rest) == ""
  {
    hide Scan, AllPlain, At;
    var r := a + [x] + rest;
    assert r[0..|a|] == a && r[|a|] == x;
    Slices(r, a, "", 0);
    PassPlain(r, 0, a, |a|, NO_NESTING);
    var n := Advance(NO_NESTING, r, |a|);
    assert n.bad && !Stops(n, x);
    Step(r, |a|, NO_NESTING);
    SpoiltStays(r, |a| + 1, n);
    NoSpaceBefore(a, x, r);
  }

  lemma NoSpaceBefore(a: string, x: char, r: string)
    requires AllPlain(a) && !IsSpace(x) && |a| < |r| && r[|a|] == x && At(r, 0, a)
    ensures SkipSpaces(r) == r
  {
    if a != "" {
      CharAt(r, 0, a, 0);
      assert PlainChar(a[0]);
    }
  }

  /** A comma ends an address. */
  lemma CommaEnds(a: string, rest: string)
    requires AllPlain(a)
    ensures AddressOf(a + "," + rest) == a
  {
    hide Scan, AllPlain, At;
    var r := a + "," + rest;
    assert r[0..|a|] == a && r[|a|] == ',';
    Slices(r, a, "", 0);
    PassPlain(r, 0, a, |a|, NO_NESTING);
    assert Scan(r, |a|, NO_NESTING) == (|a|, NO_NESTING) by {
      StopsAtComma(r, |a|);
    }
    NoSpaceBefore(a, ',', r);
    if a != "" {
      LastPlain(a);
      assert r[|a| - 1] == a[|a| - 1];
    }
    assert r[..|a|] == a;
  }

  lemma LastPlain(a: string)
    requires AllPlain(a) && a != ""
    ensures !IsSpace(a[|a| - 1])
  {
    assert PlainChar(a[|a| - 1]);
  }

  lemma StopsAtComma(r: string, i: nat)
    requires i < |r| && r[i] == ','
    ensures Scan(r, i, NO_NESTING) == (i, NO_NESTING)
  {
  }
}
