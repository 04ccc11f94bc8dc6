/** Numbers and words in a line, as the C library prints and scans them. */
module Numbers {
  import opened Text
  import opened AddressText

  // ---------------------------------------------------------------- numbers

  predicate AllDigits(s: string) { forall i :: 0 <= i < |s| ==> IsDigit(s[i]) }

  function DecInt(n: int): string { if n < 0 then "-" + Dec(-n) else Dec(n) }

  /** atol */
  function Atol(s: string): int
  {
    var t := SkipSpaces(s);
    if t != "" && t[0] == '-' then -(Atoi(t[1..]) as int)
    else if t != "" && t[0] == '+' then Atoi(t[1..])
    else Atoi(t)
  }

  lemma DecDigits(n: nat)
    ensures AllDigits(Dec(n)) && Dec(n) != "" && '-' !in Dec(n)
  {
  }

  lemma {:induction false} AtoiStops(s: string, rest: string, acc: nat)
    requires AllDigits(s) && (rest == "" || !IsDigit(rest[0]))
    ensures AtoiFrom(s + rest, acc) == AtoiFrom(s, acc)
  {
    if s == "" {
      assert s + rest == rest;
    } else {
      assert (s + rest)[1..] == s[1..] + rest;
      AtoiStops(s[1..], rest, acc * 10 + (s[0] as int - '0' as int));
    }
  }

  /** A number at the front of a text is read back. */
  lemma AtolDec(n: nat, rest: string)
    requires rest == "" || !IsDigit(rest[0])
    ensures Atol(Dec(n) + rest) == n
  {
    hide Dec, AtoiFrom;
    DecDigits(n);
    var s := Dec(n) + rest;
    assert IsDigit(s[0]) && SkipSpaces(s) == s;
    AtoiStops(Dec(n), rest, 0);
    AtoiDec(n);
  }

  // ---------------------------------------------------------------- words

  /** What is behind the first word. */
  function RestAfter(s: string): string
  {
    var t := SkipSpaces(s);
    t[WordLength(t)..]
  }

  lemma FirstField(w: string, rest: string)
    requires PlainWord(w) && rest != "" && rest[0] == BLANK
    ensures WordOf(w + rest) == w && RestAfter(w + rest) == rest
  {
    hide WordLength;
    var t := w + rest;
    assert t[0] == w[0] && SkipSpaces(t) == t;
    WordLengthIs(w, rest);
    assert t[|w|..] == rest && t[..|w|] == w;
  }

  lemma FieldBehindBlank(t: string)
    ensures WordOf([BLANK] + t) == WordOf(t) && RestAfter([BLANK] + t) == RestAfter(t)
  {
    assert ([BLANK] + t)[1..] == t;
    assert SkipSpaces([BLANK] + t) == SkipSpaces(t);
  }
}
