/** The owners file: one line `owner list prefs` for each owner of each list.
    Entries are blanked with spaces, reused in place or appended
    (lplib/sender.c, commands/set.c). */
module Owners {
  import opened Text
  import opened TextFiles
  import opened LineFiles
  import opened AddressText

  datatype Key = Key(owner: string, list: string)

  // ---------------------------------------------------------------- lines

  function BlankLine(n: nat): (s: string) ensures |s| == n { seq(n, _ => BLANK) }

  predicate IsBlank(l: string) { l != "" && l[0] == BLANK }

  /** The owner and list a line is for, in upper case. */
  function KeyOf(l: string): Option<Key>
  {
    var line := l + [LF];
    var a := AddressOf(line);
    if IsBlank(l) || a == "" || a[0] == '#' then None
    else Some(Key(Upcase(a), Upcase(WordOf(line[|a|..]))))
  }

  function TrimRight(s: string): string
  {
    if s != "" && s[|s| - 1] == BLANK then TrimRight(s[..|s| - 1]) else s
  }

  /** The preferences on an entry, without the padding. */
  function PrefsOf(l: string): string
  {
    var line := l + [LF];
    var a := AddressOf(line);
    var rest := SkipSpaces(line[|a|..]);
    var prefs := SkipSpaces(rest[WordLength(rest)..]);
    TrimRight(if prefs == "" then "" else prefs[..|prefs| - 1])
  }

  /** The first entry for a key. */
  function FindEntry(ls: seq<string>, key: Key): (i: nat)
    ensures i <= |ls|
    ensures i < |ls| ==> KeyOf(ls[i]) == Some(key)
    ensures forall j :: 0 <= j < i ==> KeyOf(ls[j]) != Some(key)
  {
    if ls == [] || KeyOf(ls[0]) == Some(key) then 0 else 1 + FindEntry(ls[1..], key)
  }

  function Lookup(ls: seq<string>, key: Key): Option<string>
  {
    var i := FindEntry(ls, key);
    if i < |ls| then Some(PrefsOf(ls[i])) else None
  }

  /** The blank slot that a scan of the lines before n ends up with: the last one
      that is long enough, unless that is the first line of the file. */
  function Slot(ls: seq<string>, n: nat, need: nat): (r: Option<nat>)
    requires n <= |ls|
    ensures r.Some? ==> 0 < r.value < n && IsBlank(ls[r.value]) && need <= |ls[r.value]|
  {
    if n == 0 then None
    else if n > 1 && IsBlank(ls[n - 1]) && need <= |ls[n - 1]| then Some(n - 1)
    else Slot(ls, n - 1, need)
  }

  /** A text in a slot, padded with blanks. */
  function Padded(s: string, n: nat): string
    requires |s| <= n
  {
    s + BlankLine(n - |s|)
  }

  function Entry(owner: string, list: string, prefs: string): string
  {
    owner + [BLANK] + Locase(list) + [BLANK] + prefs
  }

  function KeyFor(owner: string, list: string): Key { Key(Upcase(owner), list) }

  function Erase(ls: seq<string>, i: nat): seq<string>
    requires i < |ls|
  {
    ls[i := BlankLine(|ls[i]|)]
  }

  /** A new entry goes to the slot, or to the end of the file. */
  function Insert(ls: seq<string>, slot: Option<nat>, s: string): seq<string>
    requires slot.Some? ==> slot.value < |ls| && |s| <= |ls[slot.value]|
  {
    if slot.Some? then ls[slot.value := Padded(s, |ls[slot.value]|)] else ls + [s]
  }

  function ProcLines(ls: seq<string>, owner: string, prefs: string, list: string, remove: bool): seq<string>
  {
    var i := FindEntry(ls, KeyFor(owner, list));
    var s := Entry(owner, list, prefs);
    if i < |ls| then (if remove then Erase(ls, i) else ls)
    else if remove then ls
    else Insert(ls, Slot(ls, |ls|, |s|), s)
  }

  function SetLines(ls: seq<string>, owner: string, prefs: string, list: string): seq<string>
  {
    var i := FindEntry(ls, KeyFor(owner, list));
    var s := Entry(owner, list, prefs);
    if i == |ls| then ls
    else if |s| <= |ls[i]| then ls[i := Padded(s, |ls[i]|)]
    else Insert(Erase(ls, i), Slot(ls, i, |s|), s)
  }

  /** Blank out a slot, then write a text at its start. */
  method Fill(f: LineFile, off: nat, len: nat, s: string, ghost i: nat)
    requires f.Valid() && i < |f.lines| && off == Offset(f.lines, i) && |s| <= len == |f.lines[i]| && LF !in s
    modifies f
    ensures f.Valid() && f.lines == old(f.lines)[i := Padded(s, len)]
  {
    hide Flatten, Offset;
    f.WriteAt(off, BlankLine(len), i);
    SameOffset(old(f.lines), f.lines, i);
    assert f.lines[i] == BlankLine(len) + "" == BlankLine(len);
    f.WriteAt(off, s, i);
    assert s + BlankLine(len)[|s|..] == Padded(s, len);
    assert f.lines == old(f.lines)[i := Padded(s, len)];
  }

  /** proc_owner */
  method ProcOwner(f: LineFile, owner: string, prefs: string, list: string, remove: bool)
    requires f.Valid() && LF !in owner && LF !in list && LF !in prefs
    modifies f
    ensures f.Valid() && f.lines == ProcLines(old(f.lines), owner, prefs, list, remove)
  {
    hide Flatten, Offset, KeyOf;
    hide AddressOf, Entry, KeyFor, SlotIs, Slot;
    var s := Entry(owner, list, prefs);
    EntryPlain(owner, list, prefs);
    var key := KeyFor(owner, list);
    NoSlot(f.lines, |s|);
    var reuseOffset: nat, reuseLen: nat := 0, 0;
    var pos, eof, found := 0, false, false;
    ghost var i := 0;
    OffsetZero(f.lines);
    while !eof && !found
      invariant f.Valid() && (found || f.lines == old(f.lines)) && i <= |old(f.lines)|
      invariant pos == Offset(old(f.lines), i)
      invariant eof ==> i == |old(f.lines)|
      invariant forall j :: 0 <= j < i && !(found && j == i - 1) ==> KeyOf(old(f.lines)[j]) != Some(key)
      invariant found ==> i > 0 && KeyOf(old(f.lines)[i - 1]) == Some(key)
      invariant found ==> f.lines == if remove then Erase(old(f.lines), i - 1) else old(f.lines)
      invariant !found ==> SlotIs(f.lines, Slot(f.lines, i, |s|), reuseOffset, reuseLen)
      decreases |old(f.lines)| - i, !eof
    {
      ghost var k := i;
      var line, next := f.ReadLine(pos, i);
      if line == "" {
        eof := true;
      } else {
        var len := |line| - 1;
        i := i + 1;
        pos := next;
        assert line[..len] == f.lines[k];
        NextSlot(f.lines, k, |s|, reuseOffset, reuseLen);
        if line[0] == BLANK {
          if len >= |s| {
            reuseOffset, reuseLen := pos - |line|, len;
          }
          BlankHasNoKey(f.lines[k]);
        } else {
          var hit := IsFor(line, key);
          if hit {
            found := true;
            if remove {
              f.WriteAt(pos - |line|, BlankLine(len), k);
              assert BlankLine(len) + f.lines[k][len..] == f.lines[k];
              assert f.lines[k] == BlankLine(len);
            }
          }
        }
      }
    }
    if found {
      FirstEntry(old(f.lines), key, i - 1);
    } else {
      FirstEntry(old(f.lines), key, i);
      if !remove {
        AddAt(f, reuseOffset, reuseLen, s, i);
      }
    }
  }

  /** The end of both commands: use the slot, or append. */
  method AddAt(f: LineFile, reuseOffset: nat, reuseLen: nat, s: string, ghost n: nat)
    requires f.Valid() && n <= |f.lines| && LF !in s
    requires SlotIs(f.lines, Slot(f.lines, n, |s|), reuseOffset, reuseLen)
    modifies f
    ensures f.Valid() && f.lines == Insert(old(f.lines), Slot(old(f.lines), n, |s|), s)
  {
    hide Flatten, Offset;
    if reuseOffset != 0 {
      Fill(f, reuseOffset, reuseLen, s, Slot(f.lines, n, |s|).value);
    } else {
      f.Append(s);
    }
  }

  /** The PREFERENCE part of set: the owner's entry is rewritten where it
      stands if it fits, else blanked and written elsewhere. */
  method SetPreference(f: LineFile, owner: string, newmode: string, list: string)
    requires f.Valid() && LF !in owner && LF !in list && LF !in newmode
    requires Tidy(f.lines)
    modifies f
    ensures f.Valid() && f.lines == SetLines(old(f.lines), owner, Upcase(Unquoted(newmode)), list)
  {
    hide Flatten, Offset, KeyOf;
    var prefs := Upcase(Unquoted(newmode));
    UnquotedPlain(newmode);
    hide AddressOf, Entry, KeyFor, SlotIs, Slot;
    var s := Entry(owner, list, prefs);
    EntryPlain(owner, list, prefs);
    var key := KeyFor(owner, list);
    NoSlot(f.lines, |s|);
    var reuseOffset: nat, reuseLen: nat := 0, 0;
    var pos, eof, found := 0, false, false;
    ghost var i := 0;
    OffsetZero(f.lines);
    while !eof && !found
      invariant f.Valid() && (found || f.lines == old(f.lines)) && i <= |old(f.lines)|
      invariant pos == Offset(old(f.lines), i)
      invariant eof ==> i == |old(f.lines)|
      invariant forall j :: 0 <= j < i && !(found && j == i - 1) ==> KeyOf(old(f.lines)[j]) != Some(key)
      invariant found ==> i > 0 && KeyOf(old(f.lines)[i - 1]) == Some(key)
      invariant found ==> f.lines == SetLines(old(f.lines), owner, prefs, list)
      invariant !found ==> SlotIs(f.lines, Slot(f.lines, i, |s|), reuseOffset, reuseLen)
      decreases |old(f.lines)| - i, !eof
    {
      ghost var k := i;
      var line, next := f.ReadLine(pos, i);
      if line == "" {
        eof := true;
      } else {
        var len := |line| - 1;
        i := i + 1;
        pos := next;
        assert line[..len] == f.lines[k];
        NextSlot(f.lines, k, |s|, reuseOffset, reuseLen);
        if line[0] == '#' || line[0] == LF {
          CommentHasNoKey(f.lines[k]);
        } else if line[0] == BLANK {
          if len >= |s| {
            reuseOffset, reuseLen := pos - |line|, len;
          }
          BlankHasNoKey(f.lines[k]);
        } else {
          var hit := IsForArgs(line, key);
          if hit {
            found := true;
            FirstEntry(f.lines, key, k);
            Replace(f, pos - |line|, len, reuseOffset, reuseLen, s, k);
          }
        }
      }
    }
    if !found {
      FirstEntry(old(f.lines), key, i);
    }
  }

  method Replace(f: LineFile, off: nat, len: nat, reuseOffset: nat, reuseLen: nat, s: string, ghost k: nat)
    requires f.Valid() && k < |f.lines| && off == Offset(f.lines, k) && len == |f.lines[k]| && LF !in s
    requires SlotIs(f.lines, Slot(f.lines, k, |s|), reuseOffset, reuseLen)
    modifies f
    ensures f.Valid()
    ensures f.lines == if |s| <= len then old(f.lines)[k := Padded(s, len)]
                     else Insert(Erase(old(f.lines), k), Slot(old(f.lines), k, |s|), s)
  {
    hide Flatten, Offset;
    if |s| <= len {
      Fill(f, off, len, s, k);
    } else {
      f.WriteAt(off, BlankLine(len), k);
      assert BlankLine(len) + old(f.lines)[k][len..] == BlankLine(len);
      ghost var slot := Slot(old(f.lines), k, |s|);
      if reuseOffset != 0 {
        SameOffset(old(f.lines), f.lines, slot.value);
        Fill(f, reuseOffset, reuseLen, s, slot.value);
      } else {
        f.Append(s);
      }
    }
  }

  // ---------------------------------------------------------------- the scan

  /** reuse_offset and reuse_len hold the slot; offset 0 counts as none. */
  ghost predicate SlotIs(ls: seq<string>, slot: Option<nat>, off: nat, len: nat)
  {
    && (slot.None? ==> off == 0)
    && (slot.Some? ==> 0 < slot.value < |ls| && off == Offset(ls, slot.value) > 0 && len == |ls[slot.value]|)
  }

  lemma NoSlot(ls: seq<string>, need: nat)
    ensures SlotIs(ls, Slot(ls, 0, need), 0, 0)
  {
  }

  lemma NextSlot(ls: seq<string>, k: nat, need: nat, off: nat, len: nat)
    requires k < |ls|
    requires SlotIs(ls, Slot(ls, k, need), off, len)
    ensures IsBlank(ls[k]) && need <= |ls[k]| ==> SlotIs(ls, Slot(ls, k + 1, need), Offset(ls, k), |ls[k]|)
    ensures !(IsBlank(ls[k]) && need <= |ls[k]|) ==> SlotIs(ls, Slot(ls, k + 1, need), off, len)
  {
    hide Flatten, Offset;
    OffsetZero(ls);
    if k > 0 {
      OffsetMonotone(ls, 0, k);
    } else {
      assert Slot(ls, 0, need) == None;
    }
  }

  lemma FirstEntry(ls: seq<string>, key: Key, i: nat)
    requires i <= |ls|
    requires i < |ls| ==> KeyOf(ls[i]) == Some(key)
    requires forall j :: 0 <= j < i ==> KeyOf(ls[j]) != Some(key)
    ensures FindEntry(ls, key) == i
  {
    hide KeyOf;
  }

  lemma EntryPlain(owner: string, list: string, prefs: string)
    requires LF !in owner && LF !in list && LF !in prefs
    ensures LF !in Entry(owner, list, prefs)
  {
    assert forall i :: 0 <= i < |list| ==> Locase(list)[i] == Lower(list[i]) != LF;
  }

  lemma BlankHasNoKey(l: string)
    requires IsBlank(l)
    ensures KeyOf(l) == None
  {
  }

  /** extract_address2 and sscanf on the line, compared in upper case. */
  method IsFor(line: string, key: Key) returns (hit: bool)
    requires line != "" && line[|line| - 1] == LF && !IsBlank(line[..|line| - 1])
    ensures hit <==> KeyOf(line[..|line| - 1]) == Some(key)
  {
    hide AddressOf, WordOf;
    assert line == line[..|line| - 1] + [LF];
    var ok, owner := ExtractAddress2(line);
    var list := WordOf(line[|owner|..]);
    hit := owner != "" && owner[0] != '#' && Upcase(owner) == key.owner && Upcase(list) == key.list;
  }

  // ---------------------------------------------------------------- get_option_args

  /** No line starts with white space other than a blank. */
  ghost predicate Tidy(ls: seq<string>)
  {
    forall i :: 0 <= i < |ls| ==> ls[i] == "" || ls[i][0] == BLANK || !IsSpace(ls[i][0])
  }

  /** get_option_args with an address, then with a word. */
  method IsForArgs(line: string, key: Key) returns (hit: bool)
    requires line != "" && line[|line| - 1] == LF && !IsSpace(line[0]) && line[0] != '#'
    ensures hit <==> KeyOf(line[..|line| - 1]) == Some(key)
  {
    hide AddressOf, WordOf;
    assert line == line[..|line| - 1] + [LF];
    NoLeadingSpace(line);
    var ok, owner := ExtractAddress2(line);
    var s := SkipSpaces(line);
    if owner != "" {
      s := s[|owner|..];
    }
    var list := WordOf(s);
    hit := owner != "" && Upcase(owner) == key.owner && Upcase(list) == key.list;
    AddressStart(line);
  }

  lemma NoLeadingSpace(line: string)
    requires line != "" && !IsSpace(line[0])
    ensures SkipSpaces(line) == line
  {
  }

  lemma AddressStart(line: string)
    requires line != "" && !IsSpace(line[0])
    ensures AddressOf(line) != "" ==> AddressOf(line)[0] == line[0]
  {
  }

  lemma CommentHasNoKey(l: string)
    requires l == "" || l[0] == '#'
    ensures KeyOf(l) == None
  {
    if l == "" {
      assert SkipSpaces([LF]) == "";
    } else {
      AddressStart(l + [LF]);
    }
  }

  /** newmode without quotation marks */
  function Unquoted(s: string): string
  {
    if s == "" then ""
    else (if s[0] == '"' || s[0] == '\'' then "" else [s[0]]) + Unquoted(s[1..])
  }

  lemma {:induction false} UnquotedConcat(a: string, b: string)
    ensures Unquoted(a + b) == Unquoted(a) + Unquoted(b)
  {
    if a == "" {
      assert a + b == b;
    } else {
      assert (a + b)[1..] == a[1..] + b;
      UnquotedConcat(a[1..], b);
    }
  }

  lemma {:induction false} NothingUnquoted(s: string)
    requires '"' !in s && '\'' !in s
    ensures Unquoted(s) == s
  {
    if s != "" {
      NothingUnquoted(s[1..]);
      assert s == [s[0]] + s[1..];
    }
  }

  /** A text without quotation marks stays; put in quotation marks it loses them. */
  lemma UnquotedIs(s: string)
    requires '"' !in s && '\'' !in s
    ensures Unquoted(s) == s == Unquoted("\"" + s + "\"") == Unquoted("'" + s + "'")
  {
    hide Unquoted;
    NothingUnquoted(s);
    UnquotedMarks();
    UnquotedConcat("\"" + s, "\"");
    UnquotedConcat("\"", s);
    UnquotedConcat("'" + s, "'");
    UnquotedConcat("'", s);
    assert "" + s + "" == s;
  }

  lemma UnquotedMarks()
    ensures Unquoted("\"") == "" == Unquoted("'")
  {
    assert "\""[1..] == "" && "'"[1..] == "";
  }

  lemma {:induction false} UnquotedPlain(s: string)
    requires LF !in s
    ensures LF !in Upcase(Unquoted(s))
  {
    if s != "" {
      UnquotedPlain(s[1..]);
      assert s[0] != LF;
      var u, t := Unquoted(s), Unquoted(s[1..]);
      forall i | 0 <= i < |u| ensures Upper(u[i]) != LF {
        if |u| == |t| {
          assert u == t;
          assert Upcase(t)[i] == Upper(t[i]);
        } else if i > 0 {
          assert u[i] == t[i - 1];
          assert Upcase(t)[i - 1] == Upper(t[i - 1]);
        }
      }
    }
  }
}
