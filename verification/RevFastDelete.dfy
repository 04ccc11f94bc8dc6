/** The fast delete of a list, which visits only the users the list names,
    against the full delete, which visits the whole database. */
module RevFastDelete {
  import opened Text
  import opened RevRecords
  import opened RevIndex
  import opened RevLaws

  /** A record that writes the list's name in another case has one of the roles. */
  ghost predicate OthersNamed(ix: Index, name: string, um: bv16)
  {
    forall key :: NamedOrHit(RecsOf(ix, key), name, um)
  }

  ghost predicate NamedOrHit(rs: seq<Rec>, name: string, um: bv16)
  {
    forall i :: 0 <= i < |rs| && SameNoCase(rs[i].name, name) ==> rs[i].name == name || Has(rs[i].fields.mask, um)
  }

  // ---------------------------------------------------------------- records put and put again

  lemma PutPut(rs: seq<Rec>, name: string, f: Fields, g: Fields)
    requires ValidRecs(rs) && (f.mask != 0 || g.mask == 0)
    ensures Put(Put(rs, name, f), name, g) == Put(rs, name, g)
  {
    hide ValidRec, ValidRecs, SameNoCase, Find, Put, Front, Back;
    var a, b := Front(rs, name), Back(rs, name);
    AroundValid(rs, name);
    PutAround(rs, name, f);
    PutAround(rs, name, g);
    if f.mask != 0 {
      assert SameNoCase(name, name) by {
        SameItself(name);
      }
      PutOver(a, Rec(name, f), b, name, g);
    } else {
      assert a + [] + b == a + b;
      FindUnique(a + b, name, |a + b|);
      PutNothing(a + b, name, g);
    }
  }

  lemma PutOver(a: seq<Rec>, r: Rec, b: seq<Rec>, name: string, g: Fields)
    requires SameNoCase(r.name, name)
    requires forall j :: 0 <= j < |a| ==> !SameNoCase(a[j].name, name)
    ensures Put(a + [r] + b, name, g) == a + One(name, g) + b
  {
    hide SameNoCase, Find;
    var rs := a + [r] + b;
    FindUnique(rs, name, |a|);
    assert rs[..|a|] == a && rs[|a| + 1..] == b;
  }

  lemma PutNothing(rs: seq<Rec>, name: string, g: Fields)
    requires Find(rs, name) == |rs| && g.mask == 0
    ensures Put(rs, name, g) == rs
  {
    assert rs + [] == rs;
  }

  lemma SameItself(name: string)
    ensures SameNoCase(name, name)
  {
  }

  /** Putting back what is there changes the name only, if that. */
  lemma PutSameIff(rs: seq<Rec>, name: string)
    requires ValidRecs(rs)
    ensures Put(rs, name, Or(Lookup(rs, name), NO_FIELDS)) == rs <==>
            forall i :: 0 <= i < |rs| && SameNoCase(rs[i].name, name) ==> rs[i].name == name
  {
    hide SameNoCase;
    var i := Find(rs, name);
    if i < |rs| {
      assert ValidRec(rs[i]);
      var put := rs[..i] + [Rec(name, rs[i].fields)] + rs[i + 1..];
      assert Put(rs, name, Or(Lookup(rs, name), NO_FIELDS)) == put;
      assert rs == rs[..i] + [rs[i]] + rs[i + 1..];
      assert put[i] == Rec(name, rs[i].fields);
      OneRecord(rs, name, i);
    } else {
      assert rs + [] == rs;
    }
  }

  lemma OneRecord(rs: seq<Rec>, name: string, i: nat)
    requires ValidRecs(rs) && i < |rs| && SameNoCase(rs[i].name, name)
    ensures forall j :: 0 <= j < |rs| && SameNoCase(rs[j].name, name) ==> j == i
  {
  }

  /** ix' comes from ix by changing this list's records of these users only, in place. */
  ghost predicate OnlyPut(ix': Index, ix: Index, name: string, users: set<string>)
  {
    forall key :: RecsOf(ix', key) ==
                  if key in users then Put(RecsOf(ix, key), name, FieldsIn(ix', name, key)) else RecsOf(ix, key)
  }

  function Keys(emails: seq<string>): (ks: set<string>)
    ensures forall key :: key in ks <==> HasEmail(emails, key)
  {
    set i | 0 <= i < |emails| :: Locase(emails[i])
  }

  function SubscriberKeys(subs: seq<Subscriber>): (ks: set<string>)
    ensures forall key :: key in ks <==> Subscribed(subs, key)
  {
    set i | 0 <= i < |subs| :: Locase(subs[i].email)
  }

  lemma ClearedStaysClear(f: Fields, mask: bv16, listpw: Option<string>, subpw: Option<string>)
    requires f.mask == 0
    ensures NewFields(f, mask, UR_CLEARBIT, listpw, subpw).mask == 0
  {
  }

  lemma ClearPuts(ix': Index, ix: Index, email: string, name: string, mask: bv16, listpw: Option<string>,
                  users: set<string>)
    requires ValidIndex(ix) && ValidIndex(ix') && ValidName(name) && ValidPasswords(listpw, None)
    requires OnlyPut(ix', ix, name, users)
    ensures OnlyPut(UpdateUser(ix', email, name, mask, UR_CLEARBIT, listpw, None), ix, name, users + {Locase(email)})
  {
    hide Put, Lookup, ValidRecs, NewFields, Locase, ValidName, ValidPasswords;
    NoRecsValid();
    var new' := UpdateUser(ix', email, name, mask, UR_CLEARBIT, listpw, None);
    UserUpdated(ix', email, name, mask, UR_CLEARBIT, listpw, None);
    forall key
      ensures RecsOf(new', key) == if key in users + {Locase(email)}
                                   then Put(RecsOf(ix, key), name, FieldsIn(new', name, key)) else RecsOf(ix, key)
    {
      var f, g := FieldsIn(ix', name, key), FieldsIn(new', name, key);
      if key == Locase(email) {
        assert RecsOf(new', key) == Put(RecsOf(ix', key), name, g);
        if key in users {
          assert RecsOf(ix', key) == Put(RecsOf(ix, key), name, f);
          if f.mask == 0 {
            ClearedStaysClear(f, mask, listpw, None);
          }
          PutPut(RecsOf(ix, key), name, f, g);
        }
      } else {
        assert RecsOf(new', key) == RecsOf(ix', key);
      }
    }
  }

  lemma KeysLast(emails: seq<string>)
    requires emails != []
    ensures var n := |emails| - 1; Keys(emails) == Keys(emails[..n]) + {Locase(emails[n])}
  {
    hide Locase;
    var n := |emails| - 1;
    forall i | 0 <= i < n ensures emails[..n][i] == emails[i] {
    }
  }

  lemma SubscriberKeysLast(subs: seq<Subscriber>)
    requires subs != []
    ensures var n := |subs| - 1; SubscriberKeys(subs) == SubscriberKeys(subs[..n]) + {Locase(subs[n].email)}
  {
    hide Locase;
    var n := |subs| - 1;
    forall i | 0 <= i < n ensures subs[..n][i] == subs[i] {
    }
  }

  lemma {:induction false} ClearUsersPuts(ix': Index, ix: Index, emails: seq<string>, name: string,
                                          role: bv16, listpw: string, users: set<string>)
    requires ValidIndex(ix) && ValidIndex(ix') && ValidName(name) && ValidListPw(listpw)
    requires OnlyPut(ix', ix, name, users)
    ensures OnlyPut(UpdateUsers(ix', emails, name, role, UR_CLEARBIT, listpw), ix, name, users + Keys(emails))
    decreases |emails|
  {
    hide OnlyPut, ValidIndex, UpdateUser, ValidName, FieldsIn, RecsOf, Others, Locase, Keys, HasEmail;
    if emails == [] {
      NoKeys();
      assert users + {} == users;
    } else {
      var n := |emails| - 1;
      var mid := UpdateUser(ix', emails[n], name, role, UR_CLEARBIT, Some(listpw), None);
      assert ValidPasswords(Some(listpw), None);
      UserUpdated(ix', emails[n], name, role, UR_CLEARBIT, Some(listpw), None);
      ClearPuts(ix', ix, emails[n], name, role, Some(listpw), users);
      ClearUsersPuts(mid, ix, emails[..n], name, role, listpw, users + {Locase(emails[n])});
      KeysLast(emails);
      assert users + {Locase(emails[n])} + Keys(emails[..n]) == users + Keys(emails);
    }
  }

  lemma NoKeys()
    ensures Keys([]) == {} && SubscriberKeys([]) == {}
  {
  }

  lemma ClearSubTwice(f: Fields)
    ensures var g := NewFields(f, UR_SUBSCRIBER, UR_CLEARBIT, None, None);
            NewFields(g, UR_SUBSCRIBER, UR_CLEARBIT, None, None) == g
  {
    hide CombineMask;
    MaskTwice(f.mask, UR_SUBSCRIBER, UR_CLEARBIT);
  }

  function UnsubscribeIf(on: bool, f: Fields): Fields
  {
    if on then NewFields(f, UR_SUBSCRIBER, UR_CLEARBIT, None, None) else f
  }

  lemma {:induction false} SubscribersRemoved(ix: Index, subs: seq<Subscriber>, name: string)
    requires ValidIndex(ix) && ValidName(name)
    ensures var ix' := RemoveSubscribers(ix, subs, name);
            && ValidIndex(ix') && OnlyPut(ix', ix, name, SubscriberKeys(subs))
            && forall key :: FieldsIn(ix', name, key) == UnsubscribeIf(Subscribed(subs, key), FieldsIn(ix, name, key))
  {
    hide NewFields, FieldsIn, UpdateUser, ValidIndex, ValidName, RecsOf, Locase, OnlyPut, Others, SubscriberKeys;
    if subs == [] {
      NoKeys();
      NothingPut(ix, name);
    } else {
      var n := |subs| - 1;
      var mid := RemoveSubscribers(ix, subs[..n], name);
      SubscribersRemoved(ix, subs[..n], name);
      assert ValidPasswords(None, None);
      UserUpdated(mid, subs[n].email, name, UR_SUBSCRIBER, UR_CLEARBIT, None, None);
      ClearPuts(mid, ix, subs[n].email, name, UR_SUBSCRIBER, None, SubscriberKeys(subs[..n]));
      SubscriberKeysLast(subs);
      var ix' := RemoveSubscribers(ix, subs, name);
      forall key
        ensures FieldsIn(ix', name, key) == UnsubscribeIf(Subscribed(subs, key), FieldsIn(ix, name, key))
      {
        SubscribedLast(subs, key);
        ClearSubTwice(FieldsIn(ix, name, key));
      }
    }
  }

  lemma NothingPut(ix: Index, name: string)
    ensures OnlyPut(ix, ix, name, {})
  {
    hide Put, FieldsIn;
  }

  // ---------------------------------------------------------------- the fields of one user

  function ClearIf(on: bool, has: bool, f: Fields, role: bv16, listpw: string): Fields
  {
    if on && has then NewFields(f, role, UR_CLEARBIT, Some(listpw), None) else f
  }

  /** Mirrored fields with these role bits left. */
  function Left(mask: bv16, listpw: string, subpw: string): Fields
  {
    Trim(Fields(mask, listpw, subpw))
  }

  function Minus(m: bv16, role: bv16): bv16 { m & !role }

  lemma LeftCleared(m: bv16, role: bv16, listpw: string, subpw: string)
    ensures NewFields(Left(m, listpw, subpw), role, UR_CLEARBIT, Some(listpw), None) ==
            Left(Minus(m, role), listpw, subpw)
    ensures NewFields(Left(m, listpw, subpw), role, UR_CLEARBIT, None, None) == Left(Minus(m, role), listpw, subpw)
  {
    hide Trim, Has;
    NoBitsAppear(m, role, UR_SUBSCRIBER);
    NoBitsAppear(m, role, !UR_SUBSCRIBER);
    TrimLess(m, m & !role, listpw, subpw);
  }

  lemma TrimLess(m: bv16, m': bv16, listpw: string, subpw: string)
    requires Has(m', UR_SUBSCRIBER) ==> Has(m, UR_SUBSCRIBER)
    requires Has(m', !UR_SUBSCRIBER) ==> Has(m, !UR_SUBSCRIBER)
    ensures var f := Trim(Fields(m, listpw, subpw));
            && f.mask == m
            && Trim(Fields(m', listpw, f.subpw)) == Trim(Fields(m', listpw, subpw))
            && Trim(Fields(m', f.listpw, f.subpw)) == Trim(Fields(m', listpw, subpw))
  {
    hide Has;
  }

  lemma NoBitsAppear(m: bv16, role: bv16, part: bv16)
    ensures Has(m & !role, part) ==> Has(m, part)
  {
  }

  function Bits(sub: bool, o: bool, e: bool, m: bool, s: bool): bv16
  {
    AdminBits(o, e, m, s) | RoleIf(sub, UR_SUBSCRIBER)
  }

  function StepMask(on: bool, has: bool, m: bv16, role: bv16): bv16 { if on && has then Minus(m, role) else m }

  /** Clearing the five roles one by one, where present, clears the whole mask. */
  lemma OneByOne(um: bv16, sub: bool, o: bool, e: bool, m: bool, s: bool)
    ensures var b := Bits(sub, o, e, m, s);
            var b1 := StepMask(Has(um, UR_SUBSCRIBER), sub, b, UR_SUBSCRIBER);
            var b2 := StepMask(Has(um, UR_OWNER), o, b1, UR_OWNER);
            var b3 := StepMask(Has(um, UR_ERRORS_TO), e, b2, UR_ERRORS_TO);
            var b4 := StepMask(Has(um, UR_MODERATOR), m, b3, UR_MODERATOR);
            StepMask(Has(um, UR_SUB_MGR), s, b4, UR_SUB_MGR) == Minus(b, um)
  {
  }

  function FastFields(f: Fields, l: ListInfo, um: bv16, key: string): Fields
  {
    var f1 := if Has(um, UR_SUBSCRIBER) then UnsubscribeIf(Subscribed(l.subscribers, key), f) else f;
    var f2 := ClearIf(Has(um, UR_OWNER), HasEmail(l.owner, key), f1, UR_OWNER, l.password);
    var f3 := ClearIf(Has(um, UR_ERRORS_TO), HasEmail(l.errorsTo, key), f2, UR_ERRORS_TO, l.password);
    var f4 := ClearIf(Has(um, UR_MODERATOR), HasEmail(l.moderators, key), f3, UR_MODERATOR, l.password);
    ClearIf(Has(um, UR_SUB_MGR), HasEmail(l.subscrManagers, key), f4, UR_SUB_MGR, l.password)
  }

  lemma MirrorIsLeft(l: ListInfo, key: string)
    ensures Mirror(l, key) ==
            Left(Bits(Subscribed(l.subscribers, key), HasEmail(l.owner, key), HasEmail(l.errorsTo, key),
                      HasEmail(l.moderators, key), HasEmail(l.subscrManagers, key)),
                 l.password, SubscriberPw(l.subscribers, key))
  {
    hide HasEmail, Subscribed, SubscriberPw, Has;
    SplitMask(HasEmail(l.owner, key), HasEmail(l.errorsTo, key), HasEmail(l.moderators, key),
              HasEmail(l.subscrManagers, key), Subscribed(l.subscribers, key));
  }

  lemma SplitMask(o: bool, e: bool, m: bool, s: bool, sub: bool)
    ensures var admin := AdminBits(o, e, m, s);
            var all := Bits(sub, o, e, m, s);
            (Has(all, UR_SUBSCRIBER) <==> sub) && (Has(all, !UR_SUBSCRIBER) <==> admin != 0)
  {
  }

  lemma FastLeft(um: bv16, sub: bool, o: bool, e: bool, m: bool, s: bool, p: string, q: string)
    ensures var f := Left(Bits(sub, o, e, m, s), p, q);
            var f1 := if Has(um, UR_SUBSCRIBER) then UnsubscribeIf(sub, f) else f;
            var f2 := ClearIf(Has(um, UR_OWNER), o, f1, UR_OWNER, p);
            var f3 := ClearIf(Has(um, UR_ERRORS_TO), e, f2, UR_ERRORS_TO, p);
            var f4 := ClearIf(Has(um, UR_MODERATOR), m, f3, UR_MODERATOR, p);
            ClearIf(Has(um, UR_SUB_MGR), s, f4, UR_SUB_MGR, p) ==
            NewFields(f, um, UR_CLEARBIT, None, None)
  {
    hide Left, NewFields, Bits, ClearIf, UnsubscribeIf, StepMask, Has, Minus;
    var b := Bits(sub, o, e, m, s);
    var b1 := StepMask(Has(um, UR_SUBSCRIBER), sub, b, UR_SUBSCRIBER);
    var b2 := StepMask(Has(um, UR_OWNER), o, b1, UR_OWNER);
    var b3 := StepMask(Has(um, UR_ERRORS_TO), e, b2, UR_ERRORS_TO);
    var b4 := StepMask(Has(um, UR_MODERATOR), m, b3, UR_MODERATOR);
    UnsubscribedLeft(Has(um, UR_SUBSCRIBER), sub, b, p, q);
    ClearedLeft(Has(um, UR_OWNER), o, b1, UR_OWNER, p, q);
    ClearedLeft(Has(um, UR_ERRORS_TO), e, b2, UR_ERRORS_TO, p, q);
    ClearedLeft(Has(um, UR_MODERATOR), m, b3, UR_MODERATOR, p, q);
    ClearedLeft(Has(um, UR_SUB_MGR), s, b4, UR_SUB_MGR, p, q);
    LeftCleared(b, um, p, q);
    OneByOne(um, sub, o, e, m, s);
  }

  /** Field by field, the fast delete of a mirrored user is the full one. */
  lemma FastFieldsAreFull(l: ListInfo, um: bv16, key: string)
    ensures FastFields(Mirror(l, key), l, um, key) ==
            NewFields(Mirror(l, key), um, UR_CLEARBIT, None, None)
  {
    hide HasEmail, Subscribed, SubscriberPw, Left, NewFields, Bits, Mirror, ClearIf, UnsubscribeIf, Has;
    MirrorIsLeft(l, key);
    FastLeft(um, Subscribed(l.subscribers, key), HasEmail(l.owner, key), HasEmail(l.errorsTo, key),
             HasEmail(l.moderators, key), HasEmail(l.subscrManagers, key),
             l.password, SubscriberPw(l.subscribers, key));
  }

  lemma UnsubscribedLeft(on: bool, has: bool, m: bv16, listpw: string, subpw: string)
    ensures (if on then UnsubscribeIf(has, Left(m, listpw, subpw)) else Left(m, listpw, subpw)) ==
            Left(StepMask(on, has, m, UR_SUBSCRIBER), listpw, subpw)
  {
    hide NewFields, Left, Minus;
    LeftCleared(m, UR_SUBSCRIBER, listpw, subpw);
  }

  lemma ClearedLeft(on: bool, has: bool, m: bv16, role: bv16, listpw: string, subpw: string)
    ensures ClearIf(on, has, Left(m, listpw, subpw), role, listpw) ==
            Left(StepMask(on, has, m, role), listpw, subpw)
  {
    hide NewFields, Left, Minus;
    LeftCleared(m, role, listpw, subpw);
  }

  // ---------------------------------------------------------------- the whole database

  lemma RemovedIf(on: bool, ix': Index, ix: Index, emails: seq<string>, l: ListInfo, role: bv16, users: set<string>)
    requires ValidIndex(ix) && ValidIndex(ix') && ValidList(l) && OnlyPut(ix', ix, l.alias, users)
    ensures var r := RemoveIf(on, ix', emails, l, role);
            && ValidIndex(r) && OnlyPut(r, ix, l.alias, users + KeysIf(on, emails))
            && forall key :: FieldsIn(r, l.alias, key) ==
                             ClearIf(on, HasEmail(emails, key), FieldsIn(ix', l.alias, key), role, l.password)
  {
    hide OnlyPut, ValidIndex, FieldsIn, RecsOf, UpdateUsers, Others, ValidName, HasEmail, NewFields, Keys;
    if on {
      UsersUpdated(ix', emails, l.alias, role, UR_CLEARBIT, l.password);
      ClearUsersPuts(ix', ix, emails, l.alias, role, l.password, users);
    } else {
      assert users + {} == users;
    }
  }

  function KeysIf(on: bool, emails: seq<string>): set<string> { if on then Keys(emails) else {} }

  /** The users the fast delete visits. */
  function Visited(l: ListInfo, um: bv16): set<string>
  {
    (if Has(um, UR_SUBSCRIBER) then SubscriberKeys(l.subscribers) else {})
    + KeysIf(Has(um, UR_OWNER), l.owner) + KeysIf(Has(um, UR_ERRORS_TO), l.errorsTo)
    + KeysIf(Has(um, UR_MODERATOR), l.moderators) + KeysIf(Has(um, UR_SUB_MGR), l.subscrManagers)
  }

  lemma FastDeleted(ix: Index, l: ListInfo, um: bv16)
    requires ValidIndex(ix) && ValidList(l)
    ensures var ix' := FastDelete(ix, l, um);
            && ValidIndex(ix') && OnlyPut(ix', ix, l.alias, Visited(l, um))
            && forall key :: FieldsIn(ix', l.alias, key) == FastFields(FieldsIn(ix, l.alias, key), l, um, key)
  {
    hide OnlyPut, ValidIndex, FieldsIn, RecsOf, RemoveIf, RemoveSubscribers, Others, ValidName,
         ClearIf, UnsubscribeIf, HasEmail, Subscribed, KeysIf, SubscriberKeys, Has;
    NothingPut(ix, l.alias);
    SubscribersRemoved(ix, l.subscribers, l.alias);
    var s := if Has(um, UR_SUBSCRIBER) then RemoveSubscribers(ix, l.subscribers, l.alias) else ix;
    var t := if Has(um, UR_SUBSCRIBER) then SubscriberKeys(l.subscribers) else {};
    RemovedIf(Has(um, UR_OWNER), s, ix, l.owner, l, UR_OWNER, t);
    var a := RemoveIf(Has(um, UR_OWNER), s, l.owner, l, UR_OWNER);
    var ta := t + KeysIf(Has(um, UR_OWNER), l.owner);
    RemovedIf(Has(um, UR_ERRORS_TO), a, ix, l.errorsTo, l, UR_ERRORS_TO, ta);
    var b := RemoveIf(Has(um, UR_ERRORS_TO), a, l.errorsTo, l, UR_ERRORS_TO);
    var tb := ta + KeysIf(Has(um, UR_ERRORS_TO), l.errorsTo);
    RemovedIf(Has(um, UR_MODERATOR), b, ix, l.moderators, l, UR_MODERATOR, tb);
    var c := RemoveIf(Has(um, UR_MODERATOR), b, l.moderators, l, UR_MODERATOR);
    var tc := tb + KeysIf(Has(um, UR_MODERATOR), l.moderators);
    RemovedIf(Has(um, UR_SUB_MGR), c, ix, l.subscrManagers, l, UR_SUB_MGR, tc);
  }

  lemma HitRoles(um: bv16, sub: bool, o: bool, e: bool, m: bool, s: bool)
    ensures Has(Bits(sub, o, e, m, s), um) <==>
            || (Has(um, UR_SUBSCRIBER) && sub) || (Has(um, UR_OWNER) && o) || (Has(um, UR_ERRORS_TO) && e)
            || (Has(um, UR_MODERATOR) && m) || (Has(um, UR_SUB_MGR) && s)
  {
  }

  lemma LeftMask(m: bv16, listpw: string, subpw: string)
    ensures Left(m, listpw, subpw).mask == m
  {
  }

  /** A user is visited if he has one of the roles. */
  lemma VisitedIff(l: ListInfo, um: bv16, key: string)
    ensures key in Visited(l, um) <==> Has(Mirror(l, key).mask, um)
  {
    hide HasEmail, Subscribed, SubscriberPw, Has, Left, Bits, Mirror, Keys, SubscriberKeys;
    var sub, o, e := Subscribed(l.subscribers, key), HasEmail(l.owner, key), HasEmail(l.errorsTo, key);
    var m, s := HasEmail(l.moderators, key), HasEmail(l.subscrManagers, key);
    MirrorIsLeft(l, key);
    LeftMask(Bits(sub, o, e, m, s), l.password, SubscriberPw(l.subscribers, key));
    HitRoles(um, sub, o, e, m, s);
  }

  /** What the two deletes make of the records of one user. */
  lemma FastFullRecs(ix: Index, l: ListInfo, um: bv16, key: string)
    requires ValidIndex(ix) && ValidList(l) && Agrees(ix, l)
    ensures RecsOf(FastDelete(ix, l, um), key) == RecsOf(FullDelete(ix, l.alias, um), key) <==>
            NamedOrHit(RecsOf(ix, key), l.alias, um)
  {
    hide ValidRecs, Put, FastDelete, FullDelete, Others, ValidName, FastFields, NewFields, Mirror, Visited,
         SameNoCase, Has, Lookup;
    NoRecsValid();
    var rs, f := RecsOf(ix, key), FieldsIn(ix, l.alias, key);
    assert ValidRecs(rs);
    FastDeleted(ix, l, um);
    FastFieldsAreFull(l, um, key);
    FullPuts(ix, l.alias, um, key);
    VisitedIff(l, um, key);
    if key in Visited(l, um) {
      HitIsNamed(rs, l.alias, um, f);
    } else {
      PutSameIff(rs, l.alias);
      MissedIsNamed(rs, l.alias, um, f);
    }
  }

  lemma HitIsNamed(rs: seq<Rec>, name: string, um: bv16, f: Fields)
    requires ValidRecs(rs) && f == Or(Lookup(rs, name), NO_FIELDS) && Has(f.mask, um)
    ensures NamedOrHit(rs, name, um)
  {
    hide SameNoCase, Has;
    forall i | 0 <= i < |rs| && SameNoCase(rs[i].name, name) ensures Has(rs[i].fields.mask, um) {
      OneRecord(rs, name, i);
    }
  }

  lemma MissedIsNamed(rs: seq<Rec>, name: string, um: bv16, f: Fields)
    requires ValidRecs(rs) && f == Or(Lookup(rs, name), NO_FIELDS) && !Has(f.mask, um)
    ensures NamedOrHit(rs, name, um) <==>
            forall i :: 0 <= i < |rs| && SameNoCase(rs[i].name, name) ==> rs[i].name == name
  {
    hide SameNoCase, Has;
    forall i | 0 <= i < |rs| && SameNoCase(rs[i].name, name) ensures rs[i].fields == f {
      OneRecord(rs, name, i);
    }
  }

  /** When the index mirrors the list, the fast delete and the full delete leave
      the same database, text for text, if and only if the name of the list is
      written in its own way in every record that has none of the roles: the full
      delete writes the name anew everywhere. */
  lemma FastIsFull(ix: Index, l: ListInfo, um: bv16)
    requires ValidIndex(ix) && ValidList(l) && Agrees(ix, l)
    ensures FastDelete(ix, l, um) == FullDelete(ix, l.alias, um) <==> OthersNamed(ix, l.alias, um)
  {
    hide ValidRecs, FieldsIn, Put, FastDelete, FullDelete, Others, ValidName, FastFields, NewFields, Mirror, Agrees,
         NamedOrHit, RecsOf;
    var fast, full := FastDelete(ix, l, um), FullDelete(ix, l.alias, um);
    FastDeleted(ix, l, um);
    FullyDeleted(ix, l.alias, um);
    SameByRecs(fast, full);
    if fast == full {
      forall key ensures NamedOrHit(RecsOf(ix, key), l.alias, um) {
        FastFullRecs(ix, l, um, key);
      }
    }
    if OthersNamed(ix, l.alias, um) {
      forall key ensures RecsOf(fast, key) == RecsOf(full, key) {
        FastFullRecs(ix, l, um, key);
      }
    }
  }

  lemma SameByRecs(a: Index, b: Index)
    requires ValidIndex(a) && ValidIndex(b)
    ensures a == b <==> forall key :: RecsOf(a, key) == RecsOf(b, key)
  {
    hide ValidRecs;
    if forall key :: RecsOf(a, key) == RecsOf(b, key) {
      forall key ensures key in a <==> key in b {
        assert key in a <==> RecsOf(a, key) != [];
        assert key in b <==> RecsOf(b, key) != [];
      }
      forall key | key in a ensures a[key] == b[key] {
        assert RecsOf(a, key) == RecsOf(b, key);
      }
    }
  }

  lemma FullPuts(ix: Index, name: string, um: bv16, key: string)
    ensures RecsOf(FullDelete(ix, name, um), key) ==
            Put(RecsOf(ix, key), name, NewFields(FieldsIn(ix, name, key), um, UR_CLEARBIT, None, None))
  {
    hide NewFields;
    assert Cleared(RecsOf(ix, key), name, um) ==
           Put(RecsOf(ix, key), name, NewFields(FieldsIn(ix, name, key), um, UR_CLEARBIT, None, None));
    ClearedNothing(name, um);
  }
}
