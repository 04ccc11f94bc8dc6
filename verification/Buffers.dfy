/** C strings in char buffers, and the library searches over them. */
module Buffers {
  import opened Text
  import opened TextFiles

  /** The char pointer p into a denotes the string t. */
  ghost predicate Denotes(a: array<char>, p: nat, t: string)
    reads a
  {
    && p + |t| < a.Length
    && a[p + |t|] == EOS
    && forall i :: 0 <= i < |t| ==> a[p + i] == t[i] != EOS
  }

  lemma DenotesCString(a: array<char>, p: nat, t: string)
    requires Denotes(a, p, t)
    ensures CString(a[..], p) == t
  {
    forall k | p <= k < p + |t| ensures a[..][k] != EOS {
      assert a[p + (k - p)] == t[k - p];
    }
    CStringIs(a[..], p, p + |t|);
    assert a[..][p..p + |t|] == t;
  }

  lemma {:induction false} CStringDenoted(a: array<char>, p: nat)
    requires exists i :: p <= i < a.Length && a[i] == EOS
    ensures Denotes(a, p, CString(a[..], p))
    decreases a.Length - p
  {
    if a[p] != EOS {
      CStringDenoted(a, p + 1);
      var t := CString(a[..], p);
      forall i | 0 <= i < |t| ensures a[p + i] == t[i] != EOS {
        if i > 0 {
          assert t[i] == CString(a[..], p + 1)[i - 1];
          assert a[p + 1 + (i - 1)] == CString(a[..], p + 1)[i - 1];
        }
      }
    }
  }

  lemma SubPointer(a: array<char>, p: nat, t: string, k: nat)
    requires Denotes(a, p, t) && k <= |t|
    ensures Denotes(a, p + k, t[k..])
  {
    forall i | 0 <= i < |t[k..]| ensures a[p + k + i] == t[k..][i] != EOS {
      assert a[p + (k + i)] == t[k + i];
    }
  }

  /** strchr */
  method StrChr(a: array<char>, p: nat, c: char, ghost t: string) returns (r: Option<nat>)
    requires Denotes(a, p, t) && c != EOS
    ensures r == if IndexOf(t, c) < |t| then Some(p + IndexOf(t, c)) else None
  {
    var i := p;
    while a[i] != EOS && a[i] != c
      invariant p <= i <= p + |t|
      invariant forall j :: 0 <= j < i - p ==> t[j] != c
      decreases p + |t| - i
    {
      i := i + 1;
    }
    IndexOfUnique(t, c, i - p);
    r := if a[i] == c then Some(i) else None;
  }

  /** Writing EOS over character k of the string at p leaves two strings. */
  method Cut(a: array<char>, p: nat, k: nat, ghost t: string)
    requires Denotes(a, p, t) && k < |t|
    modifies a
    ensures a[..] == old(a[..])[p + k := EOS]
    ensures Denotes(a, p, t[..k]) && Denotes(a, p + k + 1, t[k + 1..])
  {
    SubPointer(a, p, t, k + 1);
    a[p + k] := EOS;
  }

  /** A fresh buffer holding a text. */
  method CopyText(text: string) returns (data: array<char>)
    requires EOS !in text
    ensures fresh(data) && HasEos(data[..]) && CString(data[..], 0) == text
  {
    data := new char[|text| + 1](i => if 0 <= i < |text| then text[i] else EOS);
    assert Denotes(data, 0, text);
    DenotesCString(data, 0, text);
    assert data[..][|text|] == EOS;
  }

  /** strncmp(a + i, w, strlen(w)) == 0 */
  method Matches(a: array<char>, i: nat, w: string, ghost t: string) returns (b: bool)
    requires Denotes(a, 0, t) && i <= |t| && EOS !in w
    ensures b == OccursAt(t, i, w)
  {
    var j := 0;
    while j < |w| && a[i + j] == w[j]
      invariant 0 <= j <= |w| && i + j <= |t|
      invariant forall k :: 0 <= k < j ==> t[i + k] == w[k]
    {
      j := j + 1;
    }
    b := j == |w|;
    if b {
      assert t[i..i + |w|] == w;
    } else if i + |w| <= |t| {
      assert t[i..i + |w|][j] != w[j];
    }
  }

  /** strstr(a + from, w) */
  method StrStr(a: array<char>, from: nat, w: string, ghost t: string) returns (p: Option<nat>)
    requires Denotes(a, 0, t) && from <= |t| && w != "" && EOS !in w
    ensures p == FirstAt(t, from, w)
  {
    hide FirstAt, OccursAt;
    var i := from;
    while a[i] != EOS
      invariant from <= i <= |t|
      invariant forall q :: from <= q < i ==> !OccursAt(t, q, w)
      decreases |t| - i
    {
      var hit := Matches(a, i, w, t);
      if hit {
        FirstAtUnique(t, from, w, i);
        return Some(i);
      }
      i := i + 1;
    }
    if i < |t| {
      NotEosInside(a, t, i);
    }
    NoRoom(t, w);
    FirstAtNone(t, from, w);
    p := None;
  }

  lemma NotEosInside(a: array<char>, t: string, i: nat)
    requires Denotes(a, 0, t) && i < |t|
    ensures a[i] != EOS
  {
    assert a[0 + i] == t[i];
  }

  lemma NoRoom(t: string, w: string)
    requires w != ""
    ensures forall q :: |t| <= q ==> !OccursAt(t, q, w)
  {
  }
}
