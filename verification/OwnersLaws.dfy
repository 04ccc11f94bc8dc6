/** The owners file as a map from (owner, list) to preferences: what proc_owner
    and SET PREFERENCE do to it, and to the bytes of the other entries. */
module OwnersLaws {
  import opened Text
  import opened TextFiles
  import opened AddressText
  import opened Owners

  /** At most one live entry for each owner and list. */
  predicate Unique(ls: seq<string>)
  {
    forall i, j :: 0 <= i < j < |ls| && KeyOf(ls[i]).Some? ==> KeyOf(ls[i]) != KeyOf(ls[j])
  }

  /** Plain arguments; list names are kept in upper case by the callers. */
  predicate ValidArgs(owner: string, list: string, prefs: string)
  {
    PlainAddress(owner) && PlainWord(list) && Upcase(list) == list && LF !in prefs
  }

  function CleanPrefs(prefs: string): string { TrimRight(SkipSpaces(prefs)) }

  // ---------------------------------------------------------------- reading an entry back

  lemma UpperLower(s: string)
    ensures Upcase(Locase(s)) == Upcase(s)
  {
    forall i | 0 <= i < |s| ensures Upcase(Locase(s))[i] == Upcase(s)[i] {
      assert Upper(Lower(s[i])) == Upper(s[i]);
    }
  }

  lemma LowerWord(w: string)
    requires PlainWord(w)
    ensures PlainWord(Locase(w))
  {
    forall i | 0 <= i < |w| ensures !IsSpace(Locase(w)[i]) && Locase(w)[i] != EOS {
      assert Locase(w)[i] == Lower(w[i]);
    }
  }

  lemma {:induction false} SkipPadding(prefs: string, n: nat)
    ensures SkipSpaces(prefs + BlankLine(n) + [LF]) ==
            if SkipSpaces(prefs) == "" then "" else SkipSpaces(prefs) + BlankLine(n) + [LF]
    decreases |prefs| + n
  {
    var s := prefs + BlankLine(n) + [LF];
    if prefs != "" {
      assert s[1..] == prefs[1..] + BlankLine(n) + [LF];
      SkipPadding(prefs[1..], n);
    } else if n > 0 {
      assert s[1..] == "" + BlankLine(n - 1) + [LF];
      SkipPadding("", n - 1);
    } else {
      assert s == [LF] && s[1..] == "";
    }
  }

  lemma {:induction false} TrimPadding(s: string, n: nat)
    ensures TrimRight(s + BlankLine(n)) == TrimRight(s)
    decreases n
  {
    if n > 0 {
      assert (s + BlankLine(n))[..|s| + n - 1] == s + BlankLine(n - 1);
      TrimPadding(s, n - 1);
    } else {
      assert s + BlankLine(0) == s;
    }
  }

  /** An entry in a slot, padded or not, is for its owner and list and holds its
      preferences. */
  lemma EntryRead(owner: string, list: string, prefs: string, n: nat)
    requires ValidArgs(owner, list, prefs)
    ensures var l := Entry(owner, list, prefs) + BlankLine(n);
            KeyOf(l) == Some(KeyFor(owner, list)) && PrefsOf(l) == CleanPrefs(prefs)
  {
    hide PlainAddress, AddressOf, SkipSpaces, WordLength, TrimRight, Locase;
    var w := Locase(list);
    var tail := [BLANK] + prefs + BlankLine(n) + [LF];
    var rest := [BLANK] + w + tail;
    var line := Entry(owner, list, prefs) + BlankLine(n) + [LF];
    assert line == owner + rest;
    PlainAddressRead(owner, rest);
    assert line[|owner|..] == rest;
    LowerWord(list);
    PlainWordRead(w, tail);
    UpperLower(list);
    FirstNotBlank(owner);
    SecondWord(w, prefs, n);
    var p := SkipSpaces(prefs);
    if p != "" {
      assert (p + BlankLine(n) + [LF])[..|p| + n] == p + BlankLine(n);
      TrimPadding(p, n);
    }
  }

  lemma FirstNotBlank(owner: string)
    requires PlainAddress(owner)
    ensures owner != "" && owner[0] != BLANK && owner[0] != '#'
  {
    assert PlainChar(owner[0]);
  }

  lemma SecondWord(w: string, prefs: string, n: nat)
    requires PlainWord(w)
    ensures var rest := SkipSpaces([BLANK] + w + ([BLANK] + prefs + BlankLine(n) + [LF]));
            SkipSpaces(rest[WordLength(rest)..]) ==
            if SkipSpaces(prefs) == "" then "" else SkipSpaces(prefs) + BlankLine(n) + [LF]
  {
    var tail := [BLANK] + prefs + BlankLine(n) + [LF];
    var t := w + tail;
    assert ([BLANK] + w + tail)[1..] == t;
    assert t[0] == w[0];
    assert SkipSpaces([BLANK] + w + tail) == t;
    WordLengthIs(w, tail);
    assert t[|w|..] == tail;
    assert tail[1..] == prefs + BlankLine(n) + [LF];
    SkipPadding(prefs, n);
  }

  lemma BlankLineHasNoKey(n: nat)
    ensures KeyOf(BlankLine(n)) == None
  {
    if n > 0 {
      BlankHasNoKey(BlankLine(n));
    } else {
      CommentHasNoKey(BlankLine(n));
    }
  }

  // ---------------------------------------------------------------- one line changed

  lemma KeyAt(ls: seq<string>, key: Key, i: nat)
    requires Unique(ls) && i < |ls| && KeyOf(ls[i]) == Some(key)
    ensures Lookup(ls, key) == Some(PrefsOf(ls[i]))
  {
    hide KeyOf, PrefsOf;
    var k := FindEntry(ls, key);
    assert k == i;
  }

  lemma KeyNowhere(ls: seq<string>, key: Key)
    requires forall i :: 0 <= i < |ls| ==> KeyOf(ls[i]) != Some(key)
    ensures Lookup(ls, key) == None
  {
    hide KeyOf, PrefsOf;
  }

  lemma OtherKept(ls: seq<string>, ls': seq<string>, other: Key)
    requires |ls| <= |ls'|
    requires forall j :: 0 <= j < |ls| ==>
               ls'[j] == ls[j] || (KeyOf(ls[j]) != Some(other) && KeyOf(ls'[j]) != Some(other))
    requires forall j :: |ls| <= j < |ls'| ==> KeyOf(ls'[j]) != Some(other)
    ensures Lookup(ls', other) == Lookup(ls, other)
  {
    hide KeyOf, PrefsOf;
    var k := FindEntry(ls, other);
    if k < |ls| {
      FirstEntry(ls', other, k);
    } else {
      KeyNowhere(ls', other);
    }
  }

  /** Lines changed only where the key's own entry or nothing was, to the key's
      own entry or nothing. */
  ghost predicate OnlyKey(ls: seq<string>, ls': seq<string>, key: Key)
  {
    && |ls| <= |ls'|
    && (forall j :: 0 <= j < |ls| ==>
          ls'[j] == ls[j] || (KeyOf(ls[j]) in {None, Some(key)} && KeyOf(ls'[j]) in {None, Some(key)}))
    && (forall j :: |ls| <= j < |ls'| ==> KeyOf(ls'[j]) in {None, Some(key)})
  }

  lemma OnlyKeyKeepsOthers(ls: seq<string>, ls': seq<string>, key: Key, other: Key)
    requires OnlyKey(ls, ls', key) && other != key
    ensures Lookup(ls', other) == Lookup(ls, other)
  {
    hide KeyOf, PrefsOf;
    OtherKept(ls, ls', other);
  }

  lemma OnlyKeyUnique(ls: seq<string>, ls': seq<string>, key: Key, at: nat)
    requires OnlyKey(ls, ls', key) && Unique(ls)
    requires forall j :: 0 <= j < |ls'| && j != at ==> KeyOf(ls'[j]) != Some(key)
    ensures Unique(ls')
  {
    hide KeyOf, PrefsOf;
  }

  /** The key's entry is on line at, and nowhere else. */
  lemma StoredAt(ls: seq<string>, ls': seq<string>, key: Key, at: nat, prefs: string)
    requires OnlyKey(ls, ls', key) && Unique(ls)
    requires at < |ls'| && KeyOf(ls'[at]) == Some(key) && PrefsOf(ls'[at]) == prefs
    requires forall j :: 0 <= j < |ls'| && j != at ==> KeyOf(ls'[j]) != Some(key)
    ensures Unique(ls') && Lookup(ls', key) == Some(prefs)
  {
    hide KeyOf, PrefsOf;
    OnlyKeyUnique(ls, ls', key, at);
    KeyAt(ls', key, at);
  }

  // ---------------------------------------------------------------- the two commands

  lemma InsertStores(ls: seq<string>, owner: string, list: string, prefs: string, n: nat)
    requires ValidArgs(owner, list, prefs) && Unique(ls) && n <= |ls|
    requires forall j :: 0 <= j < |ls| ==> KeyOf(ls[j]) != Some(KeyFor(owner, list))
    ensures var s := Entry(owner, list, prefs);
            var key := KeyFor(owner, list);
            var ls' := Insert(ls, Slot(ls, n, |s|), s);
            OnlyKey(ls, ls', key) && Unique(ls') && Lookup(ls', key) == Some(CleanPrefs(prefs))
  {
    hide KeyOf, PrefsOf, Entry, KeyFor, ValidArgs;
    var s, key := Entry(owner, list, prefs), KeyFor(owner, list);
    var slot := Slot(ls, n, |s|);
    var ls' := Insert(ls, slot, s);
    if slot.Some? {
      BlankHasNoKey(ls[slot.value]);
      EntryRead(owner, list, prefs, |ls[slot.value]| - |s|);
      StoredAt(ls, ls', key, slot.value, CleanPrefs(prefs));
    } else {
      EntryRead(owner, list, prefs, 0);
      assert s + BlankLine(0) == s;
      StoredAt(ls, ls', key, |ls|, CleanPrefs(prefs));
    }
  }

  lemma EraseForgets(ls: seq<string>, key: Key, i: nat)
    requires Unique(ls) && i < |ls| && KeyOf(ls[i]) == Some(key)
    ensures var ls' := Erase(ls, i);
            && OnlyKey(ls, ls', key) && Unique(ls') && Lookup(ls', key) == None
            && forall j :: 0 <= j < |ls'| ==> KeyOf(ls'[j]) != Some(key)
  {
    hide KeyOf, PrefsOf;
    BlankLineHasNoKey(|ls[i]|);
    var ls' := Erase(ls, i);
    OnlyKeyUnique(ls, ls', key, i);
    KeyNowhere(ls', key);
  }

  /** proc_owner inserts an absent owner, leaves a present one alone, and removes;
      no other entry changes, and there is still one entry for each key. */
  lemma ProcOwnerIsMapUpdate(ls: seq<string>, owner: string, prefs: string, list: string, remove: bool, other: Key)
    requires ValidArgs(owner, list, prefs) && Unique(ls)
    ensures var ls' := ProcLines(ls, owner, prefs, list, remove);
            var key := KeyFor(owner, list);
            && Unique(ls')
            && Lookup(ls', key) == (if remove then None
                                    else if Lookup(ls, key).Some? then Lookup(ls, key)
                                    else Some(CleanPrefs(prefs)))
            && (other != key ==> Lookup(ls', other) == Lookup(ls, other))
  {
    hide KeyOf, PrefsOf, Entry, KeyFor, ValidArgs, OnlyKey, CleanPrefs, Slot, Insert, Erase, Unique;
    var key := KeyFor(owner, list);
    var i := FindEntry(ls, key);
    var ls' := ProcLines(ls, owner, prefs, list, remove);
    if i < |ls| && remove {
      EraseForgets(ls, key, i);
      OnlyKeyKeepsOthersIf(ls, ls', key, other);
    } else if i == |ls| && !remove {
      InsertStores(ls, owner, list, prefs, |ls|);
      OnlyKeyKeepsOthersIf(ls, ls', key, other);
    }
  }

  lemma OnlyKeyKeepsOthersIf(ls: seq<string>, ls': seq<string>, key: Key, other: Key)
    requires OnlyKey(ls, ls', key)
    ensures other != key ==> Lookup(ls', other) == Lookup(ls, other)
  {
    hide KeyOf, PrefsOf, OnlyKey, Lookup;
    if other != key {
      OnlyKeyKeepsOthers(ls, ls', key, other);
    }
  }

  /** SET PREFERENCE replaces the preferences of an owner the file knows, and
      changes nothing else. */
  lemma SetPreferenceIsMapUpdate(ls: seq<string>, owner: string, prefs: string, list: string, other: Key)
    requires ValidArgs(owner, list, prefs) && Unique(ls)
    ensures var ls' := SetLines(ls, owner, prefs, list);
            var key := KeyFor(owner, list);
            && Unique(ls')
            && Lookup(ls', key) == (if Lookup(ls, key).None? then None else Some(CleanPrefs(prefs)))
            && (other != key ==> Lookup(ls', other) == Lookup(ls, other))
  {
    hide KeyOf, PrefsOf, Entry, KeyFor, ValidArgs, CleanPrefs, Slot, Insert, Erase, Padded, Unique;
    var key, s := KeyFor(owner, list), Entry(owner, list, prefs);
    var i := FindEntry(ls, key);
    var ls' := SetLines(ls, owner, prefs, list);
    if i < |ls| && |s| <= |ls[i]| {
      RewriteStores(ls, owner, list, prefs, i);
      OnlyKeyKeepsOthersIf(ls, ls', key, other);
    } else if i < |ls| {
      EraseForgets(ls, key, i);
      var mid := Erase(ls, i);
      SlotErased(ls, i, i, |s|);
      InsertStores(mid, owner, list, prefs, i);
      OnlyKeyKeepsOthersIf(ls, mid, key, other);
      OnlyKeyKeepsOthersIf(mid, ls', key, other);
    }
  }

  /** Words are kept as they are. */
  lemma CleanIs(prefs: string)
    requires prefs != "" ==> !IsSpace(prefs[0]) && prefs[|prefs| - 1] != BLANK
    ensures CleanPrefs(prefs) == prefs
  {
  }

  /** After SET PREFERENCE the file holds, for an owner whom it knows, the new
      preferences in upper case and without the quotation marks around them; all other
      entries are what they were. */
  lemma PreferencesAreStored(ls: seq<string>, owner: string, newmode: string, mode: string, list: string, other: Key)
    requires PlainAddress(owner) && PlainWord(list) && Upcase(list) == list && Unique(ls)
    requires newmode in {mode, "\"" + mode + "\"", "'" + mode + "'"} && '"' !in mode && '\'' !in mode && LF !in mode
    requires mode != "" ==> !IsSpace(mode[0]) && mode[|mode| - 1] != BLANK
    ensures var ls' := SetLines(ls, owner, Upcase(Unquoted(newmode)), list);
            var key := KeyFor(owner, list);
            && Unique(ls')
            && (Lookup(ls, key).Some? ==> Lookup(ls', key) == Some(Upcase(mode)))
            && (Lookup(ls, key).None? ==> Lookup(ls', key) == None)
            && (other != key ==> Lookup(ls', other) == Lookup(ls, other))
  {
    hide SetLines, Lookup, Unique, KeyFor, PlainAddress, PlainWord, CleanPrefs, Unquoted;
    UnquotedIs(mode);
    UnquotedPlain(mode);
    UpperEnds(mode);
    CleanIs(Upcase(mode));
    SetPreferenceIsMapUpdate(ls, owner, Upcase(mode), list, other);
  }

  lemma UpperEnds(mode: string)
    requires mode != "" ==> !IsSpace(mode[0]) && mode[|mode| - 1] != BLANK
    ensures var u := Upcase(mode); u != "" ==> !IsSpace(u[0]) && u[|u| - 1] != BLANK
  {
    if mode != "" {
      assert Upcase(mode)[0] == Upper(mode[0]) && Upcase(mode)[|mode| - 1] == Upper(mode[|mode| - 1]);
    }
  }

  lemma RewriteStores(ls: seq<string>, owner: string, list: string, prefs: string, i: nat)
    requires ValidArgs(owner, list, prefs) && Unique(ls)
    requires i < |ls| && KeyOf(ls[i]) == Some(KeyFor(owner, list)) && |Entry(owner, list, prefs)| <= |ls[i]|
    ensures var ls' := ls[i := Padded(Entry(owner, list, prefs), |ls[i]|)];
            var key := KeyFor(owner, list);
            OnlyKey(ls, ls', key) && Unique(ls') && Lookup(ls', key) == Some(CleanPrefs(prefs))
  {
    hide KeyOf, PrefsOf, Entry, KeyFor, ValidArgs;
    var key, s := KeyFor(owner, list), Entry(owner, list, prefs);
    var ls' := ls[i := Padded(s, |ls[i]|)];
    EntryRead(owner, list, prefs, |ls[i]| - |s|);
    forall j | 0 <= j < |ls'| && j != i ensures KeyOf(ls'[j]) != Some(key) {
      assert ls'[j] == ls[j];
    }
    StoredAt(ls, ls', key, i, CleanPrefs(prefs));
  }

  lemma {:induction false} SlotErased(ls: seq<string>, i: nat, n: nat, need: nat)
    requires n <= i < |ls|
    ensures Slot(Erase(ls, i), n, need) == Slot(ls, n, need)
  {
    if n > 0 {
      SlotErased(ls, i, n - 1, need);
    }
  }

  // ---------------------------------------------------------------- the bytes of the other entries

  /** Every line keeps its place and length; the lines that change were blank or
      the key's own; the file grows by one line at most, and only for want of a slot. */
  ghost predicate SameShape(ls: seq<string>, ls': seq<string>, key: Key, s: string)
  {
    && |ls| <= |ls'| <= |ls| + 1
    && (forall j :: 0 <= j < |ls| ==> |ls'[j]| == |ls[j]|)
    && (forall j :: 0 <= j < |ls| ==> ls'[j] == ls[j] || IsBlank(ls[j]) || KeyOf(ls[j]) == Some(key))
    && (|ls'| > |ls| ==> ls'[|ls|] == s)
    && |Flatten(ls')| == |Flatten(ls)| + if |ls'| > |ls| then |s| + 1 else 0
  }

  lemma {:induction false} SameLengths(a: seq<string>, b: seq<string>)
    requires |a| == |b| && forall j :: 0 <= j < |a| ==> |a[j]| == |b[j]|
    ensures |Flatten(a)| == |Flatten(b)|
  {
    if a != [] {
      assert forall j :: 0 <= j < |a[1..]| ==> a[1..][j] == a[j + 1] && b[1..][j] == b[j + 1];
      SameLengths(a[1..], b[1..]);
    }
  }

  lemma AppendLength(a: seq<string>, b: seq<string>, s: string)
    requires |a| == |b| && forall j :: 0 <= j < |a| ==> |a[j]| == |b[j]|
    ensures |Flatten(b + [s])| == |Flatten(a)| + |s| + 1
  {
    hide Flatten;
    SameLengths(a, b);
    FlattenAppend(b, [s]);
    FlattenOne(s);
  }

  lemma InsertShape(ls: seq<string>, mid: seq<string>, key: Key, s: string, n: nat)
    requires |mid| == |ls| && n <= |mid|
    requires forall j :: 0 <= j < |ls| ==> |mid[j]| == |ls[j]|
    requires forall j :: 0 <= j < |ls| ==> mid[j] == ls[j] || KeyOf(ls[j]) == Some(key)
    ensures SameShape(ls, Insert(mid, Slot(mid, n, |s|), s), key, s)
  {
    hide KeyOf, Flatten;
    var slot := Slot(mid, n, |s|);
    var ls' := Insert(mid, slot, s);
    if slot.Some? {
      SameLengths(ls, ls');
    } else {
      AppendLength(ls, mid, s);
    }
  }

  lemma CommandsKeepShape(ls: seq<string>, owner: string, prefs: string, list: string, remove: bool)
    ensures var key := KeyFor(owner, list); var s := Entry(owner, list, prefs);
            && SameShape(ls, ProcLines(ls, owner, prefs, list, remove), key, s)
            && SameShape(ls, SetLines(ls, owner, prefs, list), key, s)
  {
    hide KeyOf, Flatten, Entry, KeyFor, Insert, Slot;
    var key, s := KeyFor(owner, list), Entry(owner, list, prefs);
    var i := FindEntry(ls, key);
    InsertShape(ls, ls, key, s, |ls|);
    if i < |ls| {
      var mid := Erase(ls, i);
      SameLengths(ls, mid);
      InsertShape(ls, mid, key, s, i);
      SlotErased(ls, i, i, |s|);
      if |s| <= |ls[i]| {
        SameLengths(ls, ls[i := Padded(s, |ls[i]|)]);
      }
    }
  }

  /** A line is added only when every blank slot behind the first line that the
      scan has passed is too short. */
  lemma {:induction false} GrowsForWantOfSlot(ls: seq<string>, n: nat, need: nat, j: nat)
    requires n <= |ls| && Slot(ls, n, need) == None && 0 < j < n && IsBlank(ls[j])
    ensures |ls[j]| < need
  {
    if j < n - 1 {
      GrowsForWantOfSlot(ls, n - 1, need, j);
    }
  }
}
