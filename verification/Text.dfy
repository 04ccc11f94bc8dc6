/** C strings, decimal numbers and text files.

    A C string is a Dafny `string` without the terminating EOS; a C buffer is a
    sequence of chars holding at least one EOS.  A text file in which every line
    ends in a newline is the sequence of its lines, each without the newline. */
module Text {
  const EOS: char := '\0'
  const LF: char := '\n'
  const BLANK: char := ' '

  datatype Option<+T> = None | Some(value: T)

  // ---------------------------------------------------------------- case

  function Lower(c: char): char
  {
    if 'A' <= c <= 'Z' then (c as int + 32) as char else c
  }

  function Upper(c: char): char
  {
    if 'a' <= c <= 'z' then (c as int - 32) as char else c
  }

  function Locase(s: string): (r: string)
    ensures |r| == |s|
  {
    seq(|s|, i requires 0 <= i < |s| => Lower(s[i]))
  }

  function Upcase(s: string): (r: string)
    ensures |r| == |s|
  {
    seq(|s|, i requires 0 <= i < |s| => Upper(s[i]))
  }

  /** strcasecmp(a, b) == 0 */
  predicate SameNoCase(a: string, b: string)
  {
    Locase(a) == Locase(b)
  }

  // ---------------------------------------------------------------- searching

  /** Where strchr(s, c) points, or |s| when it returns NULL. */
  function IndexOf(s: string, c: char): (i: nat)
    ensures i <= |s|
    ensures i < |s| ==> s[i] == c
    ensures forall j :: 0 <= j < i ==> s[j] != c
  {
    if s == "" || s[0] == c then 0 else 1 + IndexOf(s[1..], c)
  }

  lemma {:induction false} IndexOfUnique(s: string, c: char, i: nat)
    requires i <= |s|
    requires i < |s| ==> s[i] == c
    requires forall j :: 0 <= j < i ==> s[j] != c
    ensures IndexOf(s, c) == i
  {
    if i > 0 {
      IndexOfUnique(s[1..], c, i - 1);
    }
  }

  lemma IndexOfIn(a: string, c: char, b: string)
    requires c !in a
    ensures IndexOf(a + [c] + b, c) == |a|
  {
    IndexOfUnique(a + [c] + b, c, |a|);
  }

  lemma IndexOfAbsent(a: string, c: char)
    requires c !in a
    ensures IndexOf(a, c) == |a|
  {
    IndexOfUnique(a, c, |a|);
  }

  // ---------------------------------------------------------------- C buffers

  predicate HasEos(a: seq<char>) { exists i :: 0 <= i < |a| && a[i] == EOS }

  /** The string a char pointer at index i of a buffer denotes. */
  function CString(a: seq<char>, i: nat): (s: string)
    decreases |a| - i
  {
    if i >= |a| || a[i] == EOS then "" else [a[i]] + CString(a, i + 1)
  }

  lemma {:induction false} CStringIs(a: seq<char>, i: nat, j: nat)
    requires i <= j < |a| && a[j] == EOS
    requires forall k :: i <= k < j ==> a[k] != EOS
    ensures CString(a, i) == a[i..j]
    decreases j - i
  {
    if i < j {
      CStringIs(a, i + 1, j);
    }
  }

  // ---------------------------------------------------------------- decimal numbers

  predicate IsDigit(c: char) { '0' <= c <= '9' }

  function DigitChar(d: nat): (c: char)
    requires d < 10
    ensures IsDigit(c) && c as int - '0' as int == d
  {
    (d + '0' as int) as char
  }

  /** printf("%d") of a natural number */
  function Dec(n: nat): (s: string)
    ensures |s| > 0 && forall i :: 0 <= i < |s| ==> IsDigit(s[i])
  {
    if n < 10 then [DigitChar(n)] else Dec(n / 10) + [DigitChar(n % 10)]
  }

  /** atoi from the digits at the front of s, starting from acc */
  function AtoiFrom(s: string, acc: nat): nat
  {
    if s == "" || !IsDigit(s[0]) then acc
    else AtoiFrom(s[1..], acc * 10 + (s[0] as int - '0' as int))
  }

  function Atoi(s: string): nat { AtoiFrom(s, 0) }

  lemma {:induction false} AtoiSnoc(s: string, d: nat, acc: nat)
    requires d < 10 && forall i :: 0 <= i < |s| ==> IsDigit(s[i])
    ensures AtoiFrom(s + [DigitChar(d)], acc) == AtoiFrom(s, acc) * 10 + d
  {
    if s == "" {
      assert s + [DigitChar(d)] == [DigitChar(d)];
      assert [DigitChar(d)][1..] == "";
    } else {
      assert (s + [DigitChar(d)])[1..] == s[1..] + [DigitChar(d)];
      AtoiSnoc(s[1..], d, acc * 10 + (s[0] as int - '0' as int));
    }
  }

  /** Reading back a printed number gives the number. */
  lemma {:induction false} AtoiDec(n: nat)
    ensures Atoi(Dec(n)) == n
  {
    if n < 10 {
      assert Dec(n) == [DigitChar(n)];
      assert [DigitChar(n)][1..] == "";
      assert AtoiFrom("", n) == n;
    } else {
      AtoiDec(n / 10);
      AtoiSnoc(Dec(n / 10), n % 10, 0);
    }
  }

  // ---------------------------------------------------------------- joined lines

  predicate NoLF(ls: seq<string>) { forall i :: 0 <= i < |ls| ==> LF !in ls[i] }

  /** The lines with a newline between each two. */
  function Join(ls: seq<string>): string
    requires ls != []
  {
    if |ls| == 1 then ls[0] else ls[0] + [LF] + Join(ls[1..])
  }

  lemma {:induction false} JoinAppend(a: seq<string>, b: seq<string>)
    requires a != [] && b != []
    ensures Join(a + b) == Join(a) + [LF] + Join(b)
  {
    assert (a + b)[0] == a[0];
    if |a| == 1 {
      assert (a + b)[1..] == b;
    } else {
      assert (a + b)[1..] == a[1..] + b;
      JoinAppend(a[1..], b);
    }
  }

  /** The text in front of line i, and the text after it. */
  function JoinBefore(ls: seq<string>, i: nat): string
    requires i <= |ls|
  {
    if i == 0 then "" else Join(ls[..i]) + [LF]
  }

  function JoinAfter(ls: seq<string>, i: nat): string
    requires i < |ls|
  {
    if i + 1 == |ls| then "" else [LF] + Join(ls[i + 1..])
  }

  lemma {:induction false} JoinAround(ls: seq<string>, i: nat)
    requires i < |ls|
    ensures Join(ls) == JoinBefore(ls, i) + ls[i] + JoinAfter(ls, i)
  {
    if i == 0 {
      assert Join(ls) == ls[0] + JoinAfter(ls, 0);
    } else {
      var t := ls[1..];
      JoinAround(t, i - 1);
      JoinBeforeStep(ls, i);
      assert t[i..] == ls[i + 1..];
      assert JoinAfter(t, i - 1) == JoinAfter(ls, i);
      ConcatAssoc(ls[0] + [LF], JoinBefore(t, i - 1), ls[i], JoinAfter(ls, i));
    }
  }

  lemma ConcatAssoc(a: string, b: string, c: string, d: string)
    ensures a + (b + c + d) == (a + b) + c + d
  {
  }

  lemma JoinBeforeStep(ls: seq<string>, i: nat)
    requires 0 < i <= |ls|
    ensures JoinBefore(ls, i) == ls[0] + [LF] + JoinBefore(ls[1..], i - 1)
  {
    assert ls[..i][1..] == ls[1..][..i - 1];
    assert ls[..i][0] == ls[0];
  }

  lemma {:induction false} JoinHasNo(ls: seq<string>, c: char)
    requires ls != [] && c != LF && forall i :: 0 <= i < |ls| ==> c !in ls[i]
    ensures c !in Join(ls)
  {
    assert c !in ls[0];
    if |ls| > 1 {
      JoinHasNo(ls[1..], c);
    }
  }
}
