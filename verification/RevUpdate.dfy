/** revdb_update_value and the lookup of revdb_get_list on C buffers, where the
    stored text is cut into its parts by writing EOS over separators. */
module RevUpdate {
  import opened Text
  import opened RevRecords
  import opened Buffers

  /** strncasecmp(name, ptr, len) == 0 && ptr[len] == ' ' */
  method AtRecord(a: array<char>, p: nat, name: string, ghost t: string) returns (r: bool)
    requires Denotes(a, p, t) && EOS !in name
    ensures r == StartsRecord(t, name)
  {
    var i := 0;
    while i < |name| && a[p + i] != EOS && Lower(a[p + i]) == Lower(name[i])
      invariant 0 <= i <= |name| && i <= |t|
      invariant forall j :: 0 <= j < i ==> Lower(t[j]) == Lower(name[j])
    {
      i := i + 1;
    }
    r := i == |name| && a[p + i] == BLANK;
    if i == |name| {
      assert Locase(t[..i]) == Locase(name);
    } else if |name| < |t| {
      assert Locase(t[..|name|])[i] != Locase(name)[i];
    }
  }

  /** One turn of the scan, on text. */
  lemma ScanOn(s: string, name: string)
    requires !StartsRecord(s, name)
    ensures var k := IndexOf(s, LF) + 1;
            && (k >= |s| ==> FindRecord(s, name) == None)
            && (k < |s| ==>
                  FindRecord(s, name) ==
                  match FindRecord(s[k..], name) case None => None case Some(q) => Some(k + q))
  {
    hide StartsRecord, IndexOf;
  }

  /** The scan both functions start with. */
  method FindPointer(a: array<char>, name: string, ghost s: string) returns (ptr: Option<nat>)
    requires Denotes(a, 0, s) && EOS !in name
    ensures ptr == FindRecord(s, name)
  {
    hide StartsRecord, IndexOf, FindRecord;
    var p := 0;
    assert s[0..] == s;
    var hit := AtRecord(a, p, name, s);
    while !hit
      invariant p <= |s| && Denotes(a, p, s[p..])
      invariant hit == StartsRecord(s[p..], name)
      invariant FindRecord(s, name) ==
                match FindRecord(s[p..], name) case None => None case Some(q) => Some(p + q)
      decreases |s| - p, !hit
    {
      ghost var t := s[p..];
      ScanOn(t, name);
      var q := StrChr(a, p, LF, t);
      ghost var k := IndexOf(t, LF) + 1;
      if q.None? {
        return None;
      }
      SubPointer(a, p, t, k);
      assert k < |t| ==> a[p + k] == t[k] != EOS;
      if a[q.value + 1] == EOS {
        return None;
      }
      assert t[k..] == s[p + k..];
      p := q.value + 1;
      hit := AtRecord(a, p, name, s[p..]);
    }
    FoundHere(s[p..], name);
    ptr := Some(p);
  }

  lemma FoundHere(s: string, name: string)
    requires StartsRecord(s, name)
    ensures FindRecord(s, name) == Some(0)
  {
  }

  /** revdb_update_value: the new text for a user, after one list's record is
      changed; None when the user has no data left. */
  method UpdateValue(data: array?<char>, name: string, mask: bv16, opt: UpdateOption,
                     listpw: Option<string>, subpw: Option<string>)
    returns (val: Option<string>)
    requires data != null ==> HasEos(data[..])
    requires EOS !in name && LF !in name
    modifies data
    ensures val == UpdateText(if data == null then None else Some(old(CString(data[..], 0))),
                              name, mask, opt, listpw, subpw)
  {
    hide FindRecord, FieldsOf, NextLines, NewFields, Line, CString, Joined;
    var first: Option<nat>, last: Option<nat> := None, None;
    var fields := NO_FIELDS;
    ghost var c := Pieces(None, NO_FIELDS, None);
    if data != null {
      CStringDenoted(data, 0);
      ghost var s := CString(data[..], 0);
      c := CutOut(Some(s), name);
      var ptr := FindPointer(data, name, s);
      if ptr.None? {
        first := Some(0);
      } else {
        first, last, fields := CutRecord(data, ptr.value, name, s);
      }
    }
    var f := NewFields(fields, mask, opt, listpw, subpw);
    if first.None? && last.None? && f.mask == 0 {
      return None;
    }
    var text := "";
    if first.Some? {
      DenotesCString(data, first.value, c.first.value);
      text := CString(data[..], first.value);
    }
    if f.mask != 0 {
      text := Joined(text, Line(name, f));
    }
    if last.Some? {
      DenotesCString(data, last.value, c.last.value);
      text := Joined(text, CString(data[..], last.value));
    }
    val := Some(text);
  }

  /** The record at ptr is cut out: `*(ptr-1) = EOS`, `*last = EOS`, and EOS
      over the blanks between its fields. */
  method CutRecord(data: array<char>, ptr: nat, name: string, ghost s: string)
    returns (first: Option<nat>, last: Option<nat>, fields: Fields)
    requires Denotes(data, 0, s) && EOS !in name && LF !in name
    requires FindRecord(s, name) == Some(ptr)
    modifies data
    ensures fields == FieldsOf(s[ptr..], name)
    ensures ptr == 0 <==> first.None?
    ensures first.Some? ==> Denotes(data, first.value, s[..ptr - 1])
    ensures last.Some? <==> NextLines(s[ptr..]).Some?
    ensures last.Some? ==> Denotes(data, last.value, NextLines(s[ptr..]).value)
  {
    hide StartsRecord, IndexOf, FindRecord, FieldsOf, NextLines;
    FoundAtLineStart(s, name);
    ghost var t := s[ptr..];
    SubPointer(data, 0, s, ptr);
    first := None;
    if ptr != 0 {
      first := Some(0);
      Cut(data, 0, ptr - 1, s);
      assert s[ptr - 1 + 1..] == t;
    }
    last, fields := CutLine(data, ptr, name, t);
  }

  /** The line at ptr is ended at its newline and taken apart. */
  method CutLine(data: array<char>, ptr: nat, name: string, ghost t: string)
    returns (last: Option<nat>, fields: Fields)
    requires Denotes(data, ptr, t) && LF !in name && StartsRecord(t, name)
    modifies data
    ensures fields == FieldsOf(t, name)
    ensures last.Some? <==> NextLines(t).Some?
    ensures last.Some? ==> Denotes(data, last.value, NextLines(t).value)
    ensures forall i :: 0 <= i < data.Length && !(ptr <= i < ptr + |t|) ==> data[i] == old(data[i])
  {
    hide StartsRecord, IndexOf, ParseFields;
    ghost var e := IndexOf(t, LF);
    RecordBeforeNewline(t, name);
    last := None;
    assert t[..|t|] == t;
    var q := StrChr(data, ptr, LF, t);
    if q.Some? {
      Cut(data, ptr, q.value - ptr, t);
      last := Some(q.value + 1);
    }
    ghost var l := t[..e];
    SubPointer(data, ptr, l, |name| + 1);
    assert l[|name| + 1..] == t[|name| + 1..e];
    fields := CutFields(data, ptr + |name| + 1, l[|name| + 1..]);
  }

  lemma FoundAtLineStart(s: string, name: string)
    ensures var p := FindRecord(s, name);
            p.Some? ==> StartsRecord(s[p.value..], name) && (p.value > 0 ==> s[p.value - 1] == LF)
    decreases |s|
  {
    hide StartsRecord, IndexOf;
    if StartsRecord(s, name) {
      assert s[0..] == s;
    } else {
      var e := IndexOf(s, LF);
      if e + 1 < |s| {
        FoundAtLineStart(s[e + 1..], name);
        var p := FindRecord(s[e + 1..], name);
        if p.Some? {
          assert s[e + 1..][p.value..] == s[e + 1 + p.value..];
        }
      }
    }
  }

  /** Mask, list password and subscriber password, cut at the blanks. */
  method CutFields(data: array<char>, ptr: nat, ghost t: string) returns (fields: Fields)
    requires Denotes(data, ptr, t)
    modifies data
    ensures fields == ParseFields(t)
    ensures forall i :: 0 <= i < data.Length && !(ptr <= i < ptr + |t|) ==> data[i] == old(data[i])
  {
    hide IndexOf, ToMask, Atoi, CString;
    var spc := StrChr(data, ptr, BLANK, t);
    if spc.None? {
      return NO_FIELDS;
    }
    ghost var e := IndexOf(t, BLANK);
    Cut(data, ptr, spc.value - ptr, t);
    DenotesCString(data, ptr, t[..e]);
    var mask := ToMask(Atoi(CString(data[..], ptr)));
    var p := spc.value + 1;
    ghost var rest := t[e + 1..];
    spc := StrChr(data, p, BLANK, rest);
    if spc.None? {
      DenotesCString(data, p, rest);
      return Fields(mask, "", CString(data[..], p));
    }
    ghost var k := IndexOf(rest, BLANK);
    Cut(data, p, spc.value - p, rest);
    DenotesCString(data, p, rest[..k]);
    DenotesCString(data, p + k + 1, rest[k + 1..]);
    fields := Fields(mask, CString(data[..], p), CString(data[..], spc.value + 1));
  }

  /** The search and the cuts of revdb_get_list. */
  method LookupIn(data: array<char>, name: string) returns (r: Answer)
    requires HasEos(data[..]) && EOS !in name && LF !in name
    modifies data
    ensures r == LookupText(Some(old(CString(data[..], 0))), name)
  {
    hide FindRecord, IndexOf, ReadFields, StartsRecord, CString;
    CStringDenoted(data, 0);
    ghost var s := CString(data[..], 0);
    var p := FindPointer(data, name, s);
    if p.None? {
      return NOT_FOUND;
    }
    FoundAtLineStart(s, name);
    SubPointer(data, 0, s, p.value);
    r := ReadRecord(data, p.value, name, s[p.value..]);
  }

  method ReadRecord(data: array<char>, ptr: nat, name: string, ghost t: string) returns (r: Answer)
    requires Denotes(data, ptr, t) && LF !in name && StartsRecord(t, name)
    modifies data
    ensures IndexOf(t, LF) > |name| && r == ReadFields(t[|name| + 1..IndexOf(t, LF)])
  {
    hide IndexOf, ReadFields, StartsRecord;
    RecordBeforeNewline(t, name);
    assert t[..|t|] == t;
    var spc := StrChr(data, ptr, LF, t);
    if spc.Some? {
      Cut(data, ptr, spc.value - ptr, t);
    }
    ghost var l := t[..IndexOf(t, LF)];
    SubPointer(data, ptr, l, |name| + 1);
    assert l[|name| + 1..] == t[|name| + 1..IndexOf(t, LF)];
    r := ReadAt(data, ptr + |name| + 1, l[|name| + 1..]);
  }

  method ReadAt(data: array<char>, ptr: nat, ghost t: string) returns (r: Answer)
    requires Denotes(data, ptr, t)
    modifies data
    ensures r == ReadFields(t)
  {
    hide IndexOf, ToMask, Atoi, CString;
    var spc := StrChr(data, ptr, BLANK, t);
    if spc.None? {
      return Answer(ERROR, 0, None, None);
    }
    ghost var e := IndexOf(t, BLANK);
    Cut(data, ptr, spc.value - ptr, t);
    DenotesCString(data, ptr, t[..e]);
    var mask := ToMask(Atoi(CString(data[..], ptr)));
    var p := spc.value + 1;
    ghost var rest := t[e + 1..];
    spc := StrChr(data, p, BLANK, rest);
    if spc.None? {
      return Answer(ERROR, mask, None, None);
    }
    ghost var k := IndexOf(rest, BLANK);
    Cut(data, p, spc.value - p, rest);
    DenotesCString(data, p, rest[..k]);
    DenotesCString(data, p + k + 1, rest[k + 1..]);
    r := Answer(SUCCESS, mask, Some(CString(data[..], p)), Some(CString(data[..], spc.value + 1)));
  }
}
