/** The value stored for one user in the reverse user index: one line
    `list mask listpw subpw` for each list the user has a role on, lines joined
    by newlines.  The text functions follow the pointer arithmetic of
    lplib/lprevdbm.c on every text; the record functions say what it means. */
module RevRecords {
  import opened Text

  // ---------------------------------------------------------------- roles

  const UR_OWNER: bv16 := 0x0001
  const UR_MODERATOR: bv16 := 0x0002
  const UR_ERRORS_TO: bv16 := 0x0004
  const UR_SUB_MGR: bv16 := 0x0008
  const UR_SUBSCRIBER: bv16 := 0x0100
  const UR_ALL: bv16 := 0xFFFF

  datatype UpdateOption = UR_IGNORE | UR_SET | UR_AND | UR_OR | UR_XOR | UR_CLEARBIT

  datatype Fields = Fields(mask: bv16, listpw: string, subpw: string)
  datatype Rec = Rec(name: string, fields: Fields)

  const NO_FIELDS := Fields(0, "", "")

  function CombineMask(prev: bv16, mask: bv16, opt: UpdateOption): bv16
  {
    match opt
    case UR_IGNORE => prev
    case UR_SET => mask
    case UR_AND => prev & mask
    case UR_OR => prev | mask
    case UR_XOR => prev ^ mask
    case UR_CLEARBIT => prev & !mask
  }

  predicate Has(mask: bv16, roles: bv16) { mask & roles != 0 }

  /** A password is kept only with a role that uses it. */
  function Trim(f: Fields): Fields
  {
    Fields(f.mask,
           if Has(f.mask, !UR_SUBSCRIBER) then f.listpw else "",
           if Has(f.mask, UR_SUBSCRIBER) then f.subpw else "")
  }

  function Or<T>(x: Option<T>, default: T): T { if x.Some? then x.value else default }

  function NewFields(prev: Fields, mask: bv16, opt: UpdateOption,
                     listpw: Option<string>, subpw: Option<string>): Fields
  {
    Trim(Fields(CombineMask(prev.mask, mask, opt), Or(listpw, prev.listpw), Or(subpw, prev.subpw)))
  }

  // ---------------------------------------------------------------- text

  /** strncasecmp(name, ptr, len) == 0 && ptr[len] == ' ' */
  predicate StartsRecord(s: string, name: string)
  {
    |name| < |s| && SameNoCase(s[..|name|], name) && s[|name|] == BLANK
  }

  /** Where the line for this list starts. */
  function FindRecord(s: string, name: string): (p: Option<nat>)
    ensures p.Some? ==> p.value <= |s|
    decreases |s|
  {
    if StartsRecord(s, name) then Some(0)
    else
      var e := IndexOf(s, LF);
      if e + 1 >= |s| then None
      else
        match FindRecord(s[e + 1..], name)
        case None => None
        case Some(q) => Some(e + 1 + q)
  }

  /** A mask has 16 bits; roles need no more. */
  function ToMask(n: nat): bv16
  {
    if n < 0x1_0000 then n as bv16 else (n % 0x1_0000) as bv16
  }

  /** `mask listpw subpw`, with what the code makes of a line that lacks a blank. */
  function ParseFields(t: string): Fields
  {
    var e := IndexOf(t, BLANK);
    if e == |t| then NO_FIELDS
    else
      var mask := ToMask(Atoi(t[..e]));
      var rest := t[e + 1..];
      var k := IndexOf(rest, BLANK);
      if k == |rest| then Fields(mask, "", rest) else Fields(mask, rest[..k], rest[k + 1..])
  }

  datatype Pieces = Pieces(first: Option<string>, fields: Fields, last: Option<string>)

  /** The fields of the line s starts with, after the list's name and the blank. */
  function FieldsOf(s: string, name: string): Fields
  {
    var e := IndexOf(s, LF);
    if e <= |name| then NO_FIELDS else ParseFields(s[|name| + 1..e])
  }

  /** What follows the line s starts with. */
  function NextLines(s: string): Option<string>
  {
    var e := IndexOf(s, LF);
    if e < |s| then Some(s[e + 1..]) else None
  }

  /** The old data for a list and the text around it. */
  function CutOut(data: Option<string>, name: string): Pieces
  {
    match data
    case None => Pieces(None, NO_FIELDS, None)
    case Some(s) =>
      match FindRecord(s, name)
      case None => Pieces(Some(s), NO_FIELDS, None)
      case Some(p) =>
        Pieces(if p == 0 then None else Some(s[..p - 1]), FieldsOf(s[p..], name), NextLines(s[p..]))
  }

  lemma LowerKeeps(a: string, b: string, c: char)
    requires SameNoCase(a, b) && c in a && !('A' <= c <= 'Z') && !('a' <= c <= 'z')
    ensures c in b
  {
    var i :| 0 <= i < |a| && a[i] == c;
    assert |Locase(a)| == |a| && |Locase(b)| == |b|;
    assert Locase(a)[i] == Locase(b)[i];
    assert b[i] == c;
  }

  lemma RecordBeforeNewline(s: string, name: string)
    requires LF !in name && StartsRecord(s, name)
    ensures IndexOf(s, LF) > |name|
  {
    var k := IndexOf(s, LF);
    if k < |name| {
      assert s[..|name|][k] == LF;
      LowerKeeps(s[..|name|], name, LF);
      assert false;
    }
  }

  datatype Status = SUCCESS | FAILURE | ERROR
  datatype Answer = Answer(status: Status, mask: bv16, listpw: Option<string>, subpw: Option<string>)

  const NOT_FOUND := Answer(FAILURE, 0, None, None)

  function ReadFields(t: string): Answer
  {
    var e := IndexOf(t, BLANK);
    if e == |t| then Answer(ERROR, 0, None, None)
    else
      var mask := ToMask(Atoi(t[..e]));
      var rest := t[e + 1..];
      var k := IndexOf(rest, BLANK);
      if k == |rest| then Answer(ERROR, mask, None, None)
      else Answer(SUCCESS, mask, Some(rest[..k]), Some(rest[k + 1..]))
  }

  /** What revdb_get_list makes of a user's text, damaged lines included. */
  function LookupText(data: Option<string>, name: string): Answer
  {
    match data
    case None => NOT_FOUND
    case Some(s) =>
      match FindRecord(s, name)
      case None => NOT_FOUND
      case Some(p) =>
        var e := IndexOf(s[p..], LF);
        if e <= |name| then NOT_FOUND else ReadFields(s[p..][|name| + 1..e])
  }

  /** `list mask listpw subpw` */
  function Line(name: string, f: Fields): string
  {
    name + [BLANK] + Dec(f.mask as nat) + [BLANK] + f.listpw + [BLANK] + f.subpw
  }

  function Joined(a: string, b: string): string { (if a == "" then a else a + [LF]) + b }

  /** The new text, or None for a user who has no data left. */
  function Assemble(first: Option<string>, name: string, f: Fields, last: Option<string>): Option<string>
  {
    if first.None? && last.None? && f.mask == 0 then None
    else
      var a := Or(first, "");
      var b := if f.mask != 0 then Joined(a, Line(name, f)) else a;
      Some(if last.Some? then Joined(b, last.value) else b)
  }

  function UpdateText(data: Option<string>, name: string, mask: bv16, opt: UpdateOption,
                      listpw: Option<string>, subpw: Option<string>): Option<string>
  {
    var c := CutOut(data, name);
    Assemble(c.first, name, NewFields(c.fields, mask, opt, listpw, subpw), c.last)
  }

  /** The size of the buffer the new text is printed into. */
  function BufferSize(first: Option<string>, name: string, last: Option<string>): nat
  {
    1 + (if first.Some? then |first.value| + 1 else 0) + |name| + 80 + 3 + 1 +
    (if last.Some? then |last.value| else 0)
  }

  // ---------------------------------------------------------------- records

  predicate ValidName(s: string) { s != "" && BLANK !in s && LF !in s && EOS !in s }

  predicate ValidListPw(s: string) { BLANK !in s && LF !in s && EOS !in s }

  predicate ValidSubPw(s: string) { LF !in s && EOS !in s }

  predicate ValidFields(f: Fields)
  {
    && f.mask != 0
    && ValidListPw(f.listpw) && ValidSubPw(f.subpw)
    && Trim(f) == f
  }

  predicate ValidRec(r: Rec) { ValidName(r.name) && ValidFields(r.fields) }

  /** One record a list, none without a role, no password without its role. */
  predicate ValidRecs(rs: seq<Rec>)
  {
    && (forall i :: 0 <= i < |rs| ==> ValidRec(rs[i]))
    && (forall i, j :: 0 <= i < j < |rs| ==> !SameNoCase(rs[i].name, rs[j].name))
  }

  function Lines(rs: seq<Rec>): (ls: seq<string>)
    ensures |ls| == |rs|
  {
    seq(|rs|, i requires 0 <= i < |rs| => Line(rs[i].name, rs[i].fields))
  }

  function JoinValue(ls: seq<string>): Option<string> { if ls == [] then None else Some(Join(ls)) }

  /** What the database holds for these records: nothing at all when there are none. */
  function Encode(rs: seq<Rec>): Option<string> { JoinValue(Lines(rs)) }

  function Find(rs: seq<Rec>, name: string): (i: nat)
    ensures i <= |rs|
    ensures i < |rs| ==> SameNoCase(rs[i].name, name)
    ensures forall j :: 0 <= j < i ==> !SameNoCase(rs[j].name, name)
  {
    if rs == [] || SameNoCase(rs[0].name, name) then 0 else 1 + Find(rs[1..], name)
  }

  function Lookup(rs: seq<Rec>, name: string): Option<Fields>
  {
    var i := Find(rs, name);
    if i < |rs| then Some(rs[i].fields) else None
  }

  function One(name: string, f: Fields): seq<Rec> { if f.mask == 0 then [] else [Rec(name, f)] }

  /** The records with f stored for this list, in the place of its old record. */
  function Put(rs: seq<Rec>, name: string, f: Fields): seq<Rec>
  {
    var i := Find(rs, name);
    if i < |rs| then rs[..i] + One(name, f) + rs[i + 1..] else rs + One(name, f)
  }

  function Update(rs: seq<Rec>, name: string, mask: bv16, opt: UpdateOption,
                  listpw: Option<string>, subpw: Option<string>): seq<Rec>
  {
    Put(rs, name, NewFields(Or(Lookup(rs, name), NO_FIELDS), mask, opt, listpw, subpw))
  }

  // ---------------------------------------------------------------- the text of lines

  lemma StartsRecordInLine(l: string, rest: string, name: string)
    requires LF !in name && (rest == "" || rest[0] == LF)
    ensures StartsRecord(l + rest, name) <==> StartsRecord(l, name)
  {
    var s := l + rest;
    if rest != "" {
      assert s[|l|] == LF;
    }
    if |name| < |l| {
      assert s[..|name|] == l[..|name|];
    } else if StartsRecord(s, name) {
      RecordBeforeNewline(s, name);
      assert false;
    }
  }

  function FindLine(ls: seq<string>, name: string): (i: nat)
    ensures i <= |ls|
    ensures i < |ls| ==> StartsRecord(ls[i], name)
    ensures forall j :: 0 <= j < i ==> !StartsRecord(ls[j], name)
  {
    if ls == [] || StartsRecord(ls[0], name) then 0 else 1 + FindLine(ls[1..], name)
  }

  /** How the scan passes over a line of another list. */
  lemma FindRecordPasses(l: string, t: string, name: string)
    requires LF !in l && LF !in name && !StartsRecord(l, name)
    ensures FindRecord(l, name) == None
    ensures FindRecord(l + [LF] + t, name) ==
            if t == "" || FindRecord(t, name).None? then None
            else Some(|l| + 1 + FindRecord(t, name).value)
  {
    IndexOfAbsent(l, LF);
    var s := l + [LF] + t;
    assert s == l + ([LF] + t);
    StartsRecordInLine(l, [LF] + t, name);
    IndexOfIn(l, LF, t);
    assert s[|l| + 1..] == t;
  }

  /** The scan of joined lines, one line on. */
  lemma FindRecordStep(ls: seq<string>, name: string)
    requires |ls| > 1 && LF !in ls[0] && LF !in name && !StartsRecord(ls[0], name)
    ensures var t := Join(ls[1..]);
            FindRecord(Join(ls), name) ==
            if t == "" || FindRecord(t, name).None? then None
            else Some(|ls[0]| + 1 + FindRecord(t, name).value)
  {
    FindRecordPasses(ls[0], Join(ls[1..]), name);
  }

  lemma FindRecordFirst(ls: seq<string>, name: string)
    requires ls != [] && LF !in name && StartsRecord(ls[0], name)
    ensures FindRecord(Join(ls), name) == Some(0)
  {
    assert Join(ls) == ls[0] + JoinAfter(ls, 0);
    StartsRecordInLine(ls[0], JoinAfter(ls, 0), name);
  }

  lemma FindRecordOfNothing(name: string)
    ensures FindRecord("", name) == None
  {
  }

  /** The offset the scan should report for line i. */
  function ScanResult(ls: seq<string>, i: nat): Option<nat>
    requires i <= |ls|
  {
    if i == |ls| then None else Some(|JoinBefore(ls, i)|)
  }

  lemma ScanResultStep(ls: seq<string>, k: nat)
    requires |ls| > 1 && k < |ls|
    ensures ScanResult(ls, k + 1) ==
            match ScanResult(ls[1..], k) case None => None case Some(q) => Some(|ls[0]| + 1 + q)
  {
    if k + 1 < |ls| {
      JoinBeforeStep(ls, k + 1);
    }
  }

  lemma ScanStep(ls: seq<string>, name: string)
    requires |ls| > 1 && NoLF(ls) && LF !in name && !StartsRecord(ls[0], name)
    requires FindRecord(Join(ls[1..]), name) == ScanResult(ls[1..], FindLine(ls[1..], name))
    ensures FindRecord(Join(ls), name) == ScanResult(ls, 1 + FindLine(ls[1..], name))
  {
    hide FindRecord, Join, ScanResult, StartsRecord, FindLine, IndexOf;
    FindRecordStep(ls, name);
    FindRecordOfNothing(name);
    ScanResultStep(ls, FindLine(ls[1..], name));
  }

  /** The character scan stops where the line scan does. */
  lemma {:induction false} FindRecordIsFindLine(ls: seq<string>, name: string)
    requires ls != [] && NoLF(ls) && LF !in name
    ensures FindRecord(Join(ls), name) == ScanResult(ls, FindLine(ls, name))
  {
    if StartsRecord(ls[0], name) {
      FindRecordFirst(ls, name);
    } else if |ls| == 1 {
      FindRecordPasses(ls[0], "", name);
      assert FindLine(ls[1..], name) == 0;
    } else {
      FindRecordIsFindLine(ls[1..], name);
      ScanStep(ls, name);
    }
  }

  lemma SliceAround(before: string, rest: string)
    ensures (before + rest)[|before|..] == rest
    ensures before != "" ==> (before + rest)[..|before| - 1] == before[..|before| - 1]
  {
  }

  lemma LineOf(l: string, after: string, name: string)
    requires LF !in l && |name| < |l| && (after == "" || after[0] == LF)
    ensures FieldsOf(l + after, name) == ParseFields(l[|name| + 1..])
    ensures NextLines(l + after) == if after == "" then None else Some(after[1..])
  {
    IndexOfUnique(l + after, LF, |l|);
    assert (l + after)[|name| + 1..|l|] == l[|name| + 1..];
    if after != "" {
      assert (l + after)[|l| + 1..] == after[1..];
    }
  }

  lemma CutOutAt(s: string, p: nat, name: string)
    requires FindRecord(s, name) == Some(p)
    ensures CutOut(Some(s), name) ==
            Pieces(if p == 0 then None else Some(s[..p - 1]), FieldsOf(s[p..], name), NextLines(s[p..]))
  {
  }

  lemma CutOutLine(ls: seq<string>, name: string)
    requires ls != [] && NoLF(ls) && LF !in name
    ensures var i := FindLine(ls, name);
            CutOut(Some(Join(ls)), name) ==
            if i == |ls| then Pieces(Some(Join(ls)), NO_FIELDS, None)
            else Pieces(JoinValue(ls[..i]), ParseFields(ls[i][|name| + 1..]), JoinValue(ls[i + 1..]))
  {
    hide FindRecord, IndexOf, StartsRecord, ParseFields, FieldsOf, NextLines, Join, FindLine;
    FindRecordIsFindLine(ls, name);
    var i := FindLine(ls, name);
    if i < |ls| {
      var before, l, after := JoinBefore(ls, i), ls[i], JoinAfter(ls, i);
      var s := Join(ls);
      StartsLonger(l, name);
      CutOutAt(s, |before|, name);
      assert s == before + (l + after) by {
        JoinAround(ls, i);
      }
      SliceAround(before, l + after);
      LineOf(l, after, name);
      BeforeIsJoinValue(ls, i);
    }
  }

  lemma StartsLonger(l: string, name: string)
    requires StartsRecord(l, name)
    ensures |name| < |l|
  {
  }

  lemma BeforeIsJoinValue(ls: seq<string>, i: nat)
    requires i < |ls|
    ensures var before, after := JoinBefore(ls, i), JoinAfter(ls, i);
            && JoinValue(ls[..i]) == (if before == "" then None else Some(before[..|before| - 1]))
            && JoinValue(ls[i + 1..]) == (if after == "" then None else Some(after[1..]))
  {
  }

  predicate NonEmpty(ls: seq<string>) { forall i :: 0 <= i < |ls| ==> ls[i] != "" }

  lemma JoinJoined(a: seq<string>, b: seq<string>)
    requires NonEmpty(a) && NonEmpty(b) && b != []
    ensures Joined(Or(JoinValue(a), ""), Join(b)) == Join(a + b)
  {
    if a == [] {
      assert a + b == b;
    } else {
      assert Join(a) != "";
      JoinAppend(a, b);
    }
  }

  lemma AssembleIsJoin(a: seq<string>, name: string, f: Fields, b: seq<string>)
    requires NonEmpty(a) && NonEmpty(b)
    ensures Assemble(JoinValue(a), name, f, JoinValue(b)) ==
            JoinValue(a + (if f.mask == 0 then [] else [Line(name, f)]) + b)
  {
    var mid := if f.mask == 0 then [] else [Line(name, f)];
    assert a + [] == a;
    if f.mask != 0 {
      JoinJoined(a, mid);
    }
    if b != [] {
      JoinJoined(a + mid, b);
    }
    assert a + mid + [] == a + mid;
  }

  // ---------------------------------------------------------------- the text of records

  lemma ParseLine(d: string, listpw: string, subpw: string)
    requires BLANK !in d && BLANK !in listpw
    ensures ParseFields(d + [BLANK] + listpw + [BLANK] + subpw) ==
            Fields(ToMask(Atoi(d)), listpw, subpw)
  {
    var r := listpw + [BLANK] + subpw;
    var t := d + [BLANK] + listpw + [BLANK] + subpw;
    assert t == d + [BLANK] + r;
    IndexOfIn(d, BLANK, r);
    assert t[|d| + 1..] == r && t[..|d|] == d;
    IndexOfIn(listpw, BLANK, subpw);
    assert r[..|listpw|] == listpw && r[|listpw| + 1..] == subpw;
  }

  lemma DecPlain(n: nat)
    ensures BLANK !in Dec(n) && LF !in Dec(n) && EOS !in Dec(n)
  {
  }

  lemma ToMaskOfMask(m: bv16)
    ensures ToMask(m as nat) == m
  {
  }

  lemma MaskRoundTrip(m: bv16)
    ensures ToMask(Atoi(Dec(m as nat))) == m
  {
    AtoiDec(m as nat);
    ToMaskOfMask(m);
  }

  lemma LineTail(name: string, d: string, listpw: string, subpw: string)
    ensures (name + [BLANK] + d + [BLANK] + listpw + [BLANK] + subpw)[|name| + 1..] ==
            d + [BLANK] + listpw + [BLANK] + subpw
  {
  }

  lemma ParseOfLine(name: string, f: Fields)
    requires ValidListPw(f.listpw)
    ensures |name| + 1 <= |Line(name, f)| && ParseFields(Line(name, f)[|name| + 1..]) == f
  {
    var d := Dec(f.mask as nat);
    LineTail(name, d, f.listpw, f.subpw);
    DecPlain(f.mask as nat);
    ParseLine(d, f.listpw, f.subpw);
    MaskRoundTrip(f.mask);
  }

  lemma LinePlain(name: string, f: Fields)
    requires ValidName(name) && ValidListPw(f.listpw) && ValidSubPw(f.subpw)
    ensures LF !in Line(name, f) && Line(name, f) != ""
  {
    DecPlain(f.mask as nat);
  }

  lemma BlankInPrefix(s: string, n: nat, k: nat)
    requires k < n <= |s| && s[k] == BLANK
    ensures BLANK in s[..n]
  {
    assert s[..n][k] == BLANK;
  }

  /** The scan stops on a line just when the line's list name is the one wanted. */
  lemma StartsRecordOfName(name: string, tail: string, wanted: string)
    requires BLANK !in name && BLANK !in wanted
    ensures StartsRecord(name + [BLANK] + tail, wanted) <==> SameNoCase(name, wanted)
  {
    var s := name + [BLANK] + tail;
    assert s[..|name|] == name && s[|name|] == BLANK;
    assert |Locase(name)| == |name| && |Locase(wanted)| == |wanted|;
    if StartsRecord(s, wanted) && |wanted| > |name| {
      BlankInPrefix(s, |wanted|, |name|);
      LowerKeeps(s[..|wanted|], wanted, BLANK);
      assert false;
    } else if StartsRecord(s, wanted) && |wanted| < |name| {
      assert false;
    }
  }

  lemma LineStartsRecord(r: Rec, name: string)
    requires ValidRec(r) && BLANK !in name
    ensures StartsRecord(Line(r.name, r.fields), name) <==> SameNoCase(r.name, name)
  {
    var f := r.fields;
    var d := Dec(f.mask as nat);
    var tail := d + [BLANK] + f.listpw + [BLANK] + f.subpw;
    assert Line(r.name, f) == r.name + [BLANK] + tail;
    StartsRecordOfName(r.name, tail, name);
  }

  lemma LinesValid(rs: seq<Rec>)
    requires ValidRecs(rs)
    ensures NoLF(Lines(rs)) && NonEmpty(Lines(rs))
  {
    forall i | 0 <= i < |rs|
      ensures LF !in Lines(rs)[i] && Lines(rs)[i] != ""
    {
      assert ValidRec(rs[i]);
      LinePlain(rs[i].name, rs[i].fields);
    }
  }

  lemma FindLineIsFind(rs: seq<Rec>, name: string)
    requires ValidRecs(rs) && BLANK !in name
    ensures FindLine(Lines(rs), name) == Find(rs, name)
  {
    if rs != [] {
      assert ValidRec(rs[0]);
      LineStartsRecord(rs[0], name);
      assert Lines(rs)[1..] == Lines(rs[1..]);
      FindLineIsFind(rs[1..], name);
    }
  }

  lemma SameNoCaseLength(a: string, b: string)
    requires SameNoCase(a, b)
    ensures |a| == |b|
  {
    assert |Locase(a)| == |Locase(b)|;
  }

  lemma CutOutRecord(rs: seq<Rec>, name: string)
    requires ValidRecs(rs) && ValidName(name)
    ensures var i := Find(rs, name);
            CutOut(Encode(rs), name) ==
            if i == |rs| then Pieces(Encode(rs), NO_FIELDS, None)
            else Pieces(Encode(rs[..i]), rs[i].fields, Encode(rs[i + 1..]))
  {
    hide FindRecord, FieldsOf, NextLines, ParseFields, Line, Trim, StartsRecord, Join, SameNoCase;
    if rs != [] {
      var i := Find(rs, name);
      LinesValid(rs);
      FindLineIsFind(rs, name);
      CutOutLine(Lines(rs), name);
      if i < |rs| {
        assert Lines(rs)[..i] == Lines(rs[..i]);
        assert Lines(rs)[i + 1..] == Lines(rs[i + 1..]);
        SameNoCaseLength(rs[i].name, name);
        assert ValidRec(rs[i]);
        ParseOfLine(rs[i].name, rs[i].fields);
      }
    }
  }

  lemma AssembleIsEncode(a: seq<Rec>, name: string, f: Fields, b: seq<Rec>)
    requires NonEmpty(Lines(a)) && NonEmpty(Lines(b))
    ensures Assemble(Encode(a), name, f, Encode(b)) == Encode(a + One(name, f) + b)
  {
    hide Assemble, Line, NonEmpty, Join;
    AssembleIsJoin(Lines(a), name, f, Lines(b));
    assert Lines(a + One(name, f) + b) ==
           Lines(a) + (if f.mask == 0 then [] else [Line(name, f)]) + Lines(b);
  }

  /** The edited text is the text of the updated records. */
  lemma UpdateTextRefines(rs: seq<Rec>, name: string, mask: bv16, opt: UpdateOption,
                          listpw: Option<string>, subpw: Option<string>)
    requires ValidRecs(rs) && ValidName(name)
    ensures UpdateText(Encode(rs), name, mask, opt, listpw, subpw) ==
            Encode(Update(rs, name, mask, opt, listpw, subpw))
  {
    CutOutRecord(rs, name);
    PutIsAssembled(rs, name, NewFields(Or(Lookup(rs, name), NO_FIELDS), mask, opt, listpw, subpw));
  }

  lemma PutIsAssembled(rs: seq<Rec>, name: string, f: Fields)
    requires ValidRecs(rs)
    ensures var i := Find(rs, name);
            Encode(Put(rs, name, f)) ==
            if i == |rs| then Assemble(Encode(rs), name, f, None)
            else Assemble(Encode(rs[..i]), name, f, Encode(rs[i + 1..]))
  {
    hide Assemble, Line, Join, SameNoCase, ValidRec;
    LinesValid(rs);
    var i := Find(rs, name);
    if i < |rs| {
      assert Lines(rs[..i]) == Lines(rs)[..i];
      assert Lines(rs[i + 1..]) == Lines(rs)[i + 1..];
      AssembleIsEncode(rs[..i], name, f, rs[i + 1..]);
    } else {
      AssembleIsEncode(rs, name, f, []);
      assert rs + One(name, f) + [] == rs + One(name, f);
    }
  }

  lemma ReadLine(d: string, listpw: string, subpw: string)
    requires BLANK !in d && BLANK !in listpw
    ensures ReadFields(d + [BLANK] + listpw + [BLANK] + subpw) ==
            Answer(SUCCESS, ToMask(Atoi(d)), Some(listpw), Some(subpw))
  {
    var r := listpw + [BLANK] + subpw;
    var t := d + [BLANK] + listpw + [BLANK] + subpw;
    assert t == d + [BLANK] + r;
    IndexOfIn(d, BLANK, r);
    assert t[|d| + 1..] == r && t[..|d|] == d;
    IndexOfIn(listpw, BLANK, subpw);
    assert r[..|listpw|] == listpw && r[|listpw| + 1..] == subpw;
  }

  lemma ReadOfLine(name: string, f: Fields)
    requires ValidListPw(f.listpw)
    ensures |name| + 1 <= |Line(name, f)|
    ensures ReadFields(Line(name, f)[|name| + 1..]) == Answer(SUCCESS, f.mask, Some(f.listpw), Some(f.subpw))
  {
    var d := Dec(f.mask as nat);
    LineTail(name, d, f.listpw, f.subpw);
    DecPlain(f.mask as nat);
    ReadLine(d, f.listpw, f.subpw);
    MaskRoundTrip(f.mask);
  }

  lemma LookupAt(s: string, p: nat, l: string, after: string, name: string)
    requires FindRecord(s, name) == Some(p)
    requires s[p..] == l + after
    requires LF !in l && |name| < |l| && (after == "" || after[0] == LF)
    ensures LookupText(Some(s), name) == ReadFields(l[|name| + 1..])
  {
    hide FindRecord, ReadFields;
    IndexOfUnique(l + after, LF, |l|);
    assert (l + after)[|name| + 1..|l|] == l[|name| + 1..];
  }

  /** A lookup in the text answers with the record's fields. */
  lemma LookupTextRefines(rs: seq<Rec>, name: string)
    requires ValidRecs(rs) && ValidName(name)
    ensures LookupText(Encode(rs), name) ==
            match Lookup(rs, name)
            case None => NOT_FOUND
            case Some(f) => Answer(SUCCESS, f.mask, Some(f.listpw), Some(f.subpw))
  {
    hide FindRecord, ReadFields, Line, IndexOf, StartsRecord, Lines, Find, FindLine;
    if rs != [] {
      var ls, i := Lines(rs), Find(rs, name);
      LinesValid(rs);
      FindLineIsFind(rs, name);
      FindRecordIsFindLine(ls, name);
      if i < |rs| {
        LookupHit(rs, name, i);
      }
    }
  }

  lemma LookupHit(rs: seq<Rec>, name: string, i: nat)
    requires ValidRecs(rs) && ValidName(name) && NoLF(Lines(rs))
    requires i < |rs| && SameNoCase(rs[i].name, name)
    requires FindRecord(Join(Lines(rs)), name) == ScanResult(Lines(rs), i)
    ensures var f := rs[i].fields;
            LookupText(Some(Join(Lines(rs))), name) == Answer(SUCCESS, f.mask, Some(f.listpw), Some(f.subpw))
  {
    hide FindRecord, ReadFields, Line, IndexOf, LookupText, Join;
    var ls := Lines(rs);
    var before, l, after := JoinBefore(ls, i), ls[i], JoinAfter(ls, i);
    assert Join(ls) == before + (l + after) by {
      JoinAround(ls, i);
    }
    SliceAround(before, l + after);
    SameNoCaseLength(rs[i].name, name);
    assert ValidRec(rs[i]);
    ReadOfLine(rs[i].name, rs[i].fields);
    LookupAt(Join(ls), |before|, l, after, name);
  }

  // ---------------------------------------------------------------- what an update means

  predicate ValidPasswords(listpw: Option<string>, subpw: Option<string>)
  {
    && (listpw.Some? ==> ValidListPw(listpw.value))
    && (subpw.Some? ==> ValidSubPw(subpw.value))
  }

  lemma SameNoCaseTrans(a: string, b: string, c: string)
    requires SameNoCase(a, b)
    ensures SameNoCase(a, c) <==> SameNoCase(b, c)
    ensures SameNoCase(c, a) <==> SameNoCase(c, b)
    ensures SameNoCase(b, c) <==> SameNoCase(c, b)
  {
  }

  lemma SameNoCaseSym(a: string, b: string)
    ensures SameNoCase(a, b) <==> SameNoCase(b, a)
  {
  }

  lemma FindUnique(rs: seq<Rec>, name: string, i: nat)
    requires i <= |rs|
    requires i < |rs| ==> SameNoCase(rs[i].name, name)
    requires forall j :: 0 <= j < i ==> !SameNoCase(rs[j].name, name)
    ensures Find(rs, name) == i
  {
    if i > 0 {
      assert !SameNoCase(rs[0].name, name);
      FindUnique(rs[1..], name, i - 1);
    }
  }

  lemma ValidSlice(rs: seq<Rec>, lo: nat, hi: nat)
    requires ValidRecs(rs) && lo <= hi <= |rs|
    ensures ValidRecs(rs[lo..hi])
  {
    hide ValidRec, SameNoCase;
  }

  lemma AfterFind(rs: seq<Rec>, name: string, j: nat)
    requires ValidRecs(rs) && Find(rs, name) < j < |rs|
    ensures !SameNoCase(rs[j].name, name) && ValidRec(rs[j])
  {
    hide ValidRec, SameNoCase;
    SameNoCaseTrans(rs[Find(rs, name)].name, name, rs[j].name);
  }

  function Front(rs: seq<Rec>, name: string): seq<Rec> { rs[..Find(rs, name)] }

  function Back(rs: seq<Rec>, name: string): seq<Rec>
  {
    if Find(rs, name) < |rs| then rs[Find(rs, name) + 1..] else []
  }

  /** Where f goes, and the records around it. */
  lemma PutAround(rs: seq<Rec>, name: string, f: Fields)
    ensures Put(rs, name, f) == Front(rs, name) + One(name, f) + Back(rs, name)
  {
    var i := Find(rs, name);
    if i == |rs| {
      assert Front(rs, name) == rs;
      assert rs + One(name, f) + [] == rs + One(name, f);
    }
  }

  lemma AroundValid(rs: seq<Rec>, name: string)
    requires ValidRecs(rs)
    ensures var a, b := Front(rs, name), Back(rs, name);
            && ValidRecs(a) && ValidRecs(b) && ValidRecs(a + b)
            && (forall j :: 0 <= j < |a| ==> !SameNoCase(a[j].name, name))
            && (forall j :: 0 <= j < |b| ==> !SameNoCase(b[j].name, name))
  {
    hide ValidRec, SameNoCase;
    var i := Find(rs, name);
    var a, b := Front(rs, name), Back(rs, name);
    ValidSlice(rs, 0, i);
    if i < |rs| {
      ValidSlice(rs, i + 1, |rs|);
    }
    forall j | 0 <= j < |b| ensures b[j] == rs[i + 1 + j] && !SameNoCase(b[j].name, name) {
      AfterFind(rs, name, i + 1 + j);
    }
    WithoutOne(rs, i);
  }

  lemma WithoutOne(rs: seq<Rec>, i: nat)
    requires ValidRecs(rs) && i <= |rs|
    ensures ValidRecs(rs[..i] + (if i < |rs| then rs[i + 1..] else []))
  {
    hide ValidRec, SameNoCase;
  }

  lemma NewRecValid(name: string, f: Fields)
    requires ValidName(name) && (f.mask == 0 || ValidFields(f))
    ensures SameNoCase(name, name) && (f.mask != 0 ==> ValidRec(Rec(name, f)))
  {
  }

  lemma PutValid(rs: seq<Rec>, name: string, f: Fields)
    requires ValidRecs(rs) && ValidName(name) && (f.mask == 0 || ValidFields(f))
    ensures ValidRecs(Put(rs, name, f))
    ensures Lookup(Put(rs, name, f), name) == (if f.mask == 0 then None else Some(f))
  {
    hide SameNoCase, ValidRec, ValidRecs, Find, Front, Back, Put;
    NewRecValid(name, f);
    var a, b := Front(rs, name), Back(rs, name);
    AroundValid(rs, name);
    PutAround(rs, name, f);
    if f.mask == 0 {
      assert a + [] + b == a + b;
      FindUnique(a + b, name, |a + b|);
    } else {
      ValidWithRecord(a, Rec(name, f), b);
      FindUnique(a + [Rec(name, f)] + b, name, |a|);
    }
  }

  lemma ValidWithRecord(a: seq<Rec>, r: Rec, b: seq<Rec>)
    requires ValidRecs(a + b) && ValidRec(r)
    requires forall j :: 0 <= j < |a| ==> !SameNoCase(a[j].name, r.name)
    requires forall j :: 0 <= j < |b| ==> !SameNoCase(b[j].name, r.name)
    ensures ValidRecs(a + [r] + b)
  {
    hide ValidRec, SameNoCase;
    var s, t, n := a + [r] + b, a + b, |a|;
    forall i | 0 <= i < |s| ensures ValidRec(s[i]) {
      assert i < n ==> s[i] == t[i];
      assert i > n ==> s[i] == t[i - 1];
    }
    forall i, j | 0 <= i < j < |s| ensures !SameNoCase(s[i].name, s[j].name) {
      var i', j' := if i > n then i - 1 else i, if j > n then j - 1 else j;
      if i != n && j != n {
        assert s[i] == t[i'] && s[j] == t[j'];
      } else if j == n {
        assert s[i] == a[i];
      } else {
        assert s[j] == b[j - n - 1];
        SameNoCaseSym(r.name, s[j].name);
      }
    }
  }

  lemma PutKeepsLookup(rs: seq<Rec>, name: string, f: Fields, other: string)
    requires !SameNoCase(other, name)
    ensures Lookup(Put(rs, name, f), other) == Lookup(rs, other)
  {
    hide SameNoCase;
    var i := Find(rs, name);
    var mid := One(name, f);
    var (a, b) := if i < |rs| then (rs[..i], rs[i + 1..]) else (rs, []);
    var rs' := Put(rs, name, f);
    assert rs' == a + mid + b;
    SameNoCaseSym(name, other);
    var k := Find(rs, other);
    if i < |rs| {
      assert k != i by {
        SameNoCaseTrans(rs[i].name, name, other);
      }
      FindUnique(rs', other, if k < i then k else k - 1 + |mid|);
    } else {
      FindUnique(rs', other, if k < i then k else k + |mid|);
    }
  }

  lemma NewFieldsValid(prev: Fields, mask: bv16, opt: UpdateOption,
                       listpw: Option<string>, subpw: Option<string>)
    requires ValidListPw(prev.listpw) && ValidSubPw(prev.subpw) && ValidPasswords(listpw, subpw)
    ensures var f := NewFields(prev, mask, opt, listpw, subpw);
            f.mask == CombineMask(prev.mask, mask, opt) && (f.mask == 0 || ValidFields(f))
  {
  }

  /** A record string is a map from list names, case ignored, to fields: an update
      changes this list's entry and no other, and a list without roles has no entry. */
  lemma UpdateIsMapUpdate(rs: seq<Rec>, name: string, mask: bv16, opt: UpdateOption,
                          listpw: Option<string>, subpw: Option<string>, other: string)
    requires ValidRecs(rs) && ValidName(name) && ValidPasswords(listpw, subpw)
    ensures var rs' := Update(rs, name, mask, opt, listpw, subpw);
            var f := NewFields(Or(Lookup(rs, name), NO_FIELDS), mask, opt, listpw, subpw);
            && ValidRecs(rs')
            && Lookup(rs', name) == (if f.mask == 0 then None else Some(f))
            && (!SameNoCase(other, name) ==> Lookup(rs', other) == Lookup(rs, other))
  {
    var prev := Or(Lookup(rs, name), NO_FIELDS);
    NewFieldsValid(prev, mask, opt, listpw, subpw);
    var f := NewFields(prev, mask, opt, listpw, subpw);
    PutValid(rs, name, f);
    if !SameNoCase(other, name) {
      PutKeepsLookup(rs, name, f, other);
    }
  }

  function Others(rs: seq<Rec>, name: string): seq<Rec>
  {
    if rs == [] then []
    else (if SameNoCase(rs[0].name, name) then [] else [rs[0]]) + Others(rs[1..], name)
  }

  lemma {:induction false} OthersAppend(a: seq<Rec>, b: seq<Rec>, name: string)
    ensures Others(a + b, name) == Others(a, name) + Others(b, name)
  {
    if a == [] {
      assert a + b == b;
    } else {
      assert (a + b)[1..] == a[1..] + b;
      OthersAppend(a[1..], b, name);
    }
  }

  lemma OthersOne(r: Rec, name: string)
    ensures Others([r], name) == if SameNoCase(r.name, name) then [] else [r]
  {
    assert [r][1..] == [];
  }

  /** An update leaves the other lists' records as they are, in the same order. */
  lemma PutKeepsOthers(rs: seq<Rec>, name: string, f: Fields)
    ensures Others(Put(rs, name, f), name) == Others(rs, name)
  {
    var i := Find(rs, name);
    var mid := One(name, f);
    OthersOne(Rec(name, f), name);
    if i < |rs| {
      var a, b := rs[..i], rs[i + 1..];
      OthersOne(rs[i], name);
      assert rs == a + [rs[i]] + b;
      OthersAppend(a + [rs[i]], b, name);
      OthersAppend(a, [rs[i]], name);
      OthersAppend(a + mid, b, name);
      OthersAppend(a, mid, name);
    } else {
      OthersAppend(rs, mid, name);
    }
  }

  // ---------------------------------------------------------------- length

  /** Mask digits and both passwords of at most 80 characters always fit the
      buffer; with text on both sides, 80 is exactly where they stop fitting. */
  lemma TextFits(first: Option<string>, name: string, f: Fields, last: Option<string>)
    requires f.mask != 0
    ensures var used := |Dec(f.mask as nat)| + |f.listpw| + |f.subpw|;
            var text := Assemble(first, name, f, last);
            && text.Some?
            && (used <= 80 ==> |text.value| + 1 <= BufferSize(first, name, last))
            && (first.Some? && first.value != "" && last.Some? ==>
                  (|text.value| + 1 <= BufferSize(first, name, last) <==> used <= 80))
  {
  }
}
