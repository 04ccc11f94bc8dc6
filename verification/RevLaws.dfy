/** What the operations on the reverse user index achieve: a rebuild mirrors the
    list, a password change is repaired, and the fast delete is the full one. */
module RevLaws {
  import opened Text
  import opened RevRecords
  import opened RevIndex

  // ---------------------------------------------------------------- the mirror

  predicate HasEmail(emails: seq<string>, key: string)
  {
    exists i :: 0 <= i < |emails| && Locase(emails[i]) == key
  }

  predicate Subscribed(subs: seq<Subscriber>, key: string)
  {
    exists i :: 0 <= i < |subs| && Locase(subs[i].email) == key
  }

  /** The password of the last entry of a subscriber. */
  function SubscriberPw(subs: seq<Subscriber>, key: string): string
  {
    if subs == [] then ""
    else if Locase(subs[|subs| - 1].email) == key then subs[|subs| - 1].password
    else SubscriberPw(subs[..|subs| - 1], key)
  }

  function RoleIf(on: bool, role: bv16): bv16 { if on then role else 0 }

  function AdminMask(l: ListInfo, key: string): bv16
  {
    RoleIf(HasEmail(l.owner, key), UR_OWNER) | RoleIf(HasEmail(l.errorsTo, key), UR_ERRORS_TO) |
    RoleIf(HasEmail(l.moderators, key), UR_MODERATOR) | RoleIf(HasEmail(l.subscrManagers, key), UR_SUB_MGR)
  }

  function WithSubscriber(admin: bv16, sub: bool): bv16 { admin | RoleIf(sub, UR_SUBSCRIBER) }

  /** What the list itself says about a user: the union of the roles, the list
      password for an administrator, the subscription password for a subscriber. */
  function Mirror(l: ListInfo, key: string): Fields
  {
    var admin := AdminMask(l, key);
    var sub := Subscribed(l.subscribers, key);
    Fields(WithSubscriber(admin, sub),
           if admin == 0 then "" else l.password,
           if sub then SubscriberPw(l.subscribers, key) else "")
  }

  function FieldsIn(ix: Index, name: string, key: string): Fields
  {
    Or(Lookup(RecsOf(ix, key), name), NO_FIELDS)
  }

  /** The index says of this list just what the list says of itself. */
  ghost predicate Agrees(ix: Index, l: ListInfo)
  {
    forall key :: FieldsIn(ix, l.alias, key) == Mirror(l, key)
  }

  // ---------------------------------------------------------------- one update

  ghost predicate SameOthers(a: Index, b: Index, name: string)
  {
    forall key :: Others(RecsOf(a, key), name) == Others(RecsOf(b, key), name)
  }

  lemma NoFieldsWithoutMask(rs: seq<Rec>, name: string, f: Fields, mask: bv16, opt: UpdateOption,
                            listpw: Option<string>, subpw: Option<string>)
    ensures NewFields(f, mask, opt, listpw, subpw).mask == 0 ==>
              NewFields(f, mask, opt, listpw, subpw) == NO_FIELDS
  {
  }

  /** An update of one user changes that user's entry for the list, and nothing else. */
  lemma UserUpdated(ix: Index, email: string, name: string, mask: bv16, opt: UpdateOption,
                    listpw: Option<string>, subpw: Option<string>)
    requires ValidIndex(ix) && ValidName(name) && ValidPasswords(listpw, subpw)
    ensures var ix' := UpdateUser(ix, email, name, mask, opt, listpw, subpw);
            && ValidIndex(ix')
            && SameOthers(ix', ix, name)
            && forall key :: FieldsIn(ix', name, key) ==
                             if key == Locase(email) then NewFields(FieldsIn(ix, name, key), mask, opt, listpw, subpw)
                             else FieldsIn(ix, name, key)
  {
    hide NewFields, Lookup, Put, ValidRecs, Others, Locase, ValidName, ValidPasswords;
    var key := Locase(email);
    var rs := RecsOf(ix, key);
    var f := NewFields(Or(Lookup(rs, name), NO_FIELDS), mask, opt, listpw, subpw);
    NoRecsValid();
    UpdateIsMapUpdate(rs, name, mask, opt, listpw, subpw, name);
    NoFieldsWithoutMask(rs, name, Or(Lookup(rs, name), NO_FIELDS), mask, opt, listpw, subpw);
    PutKeepsOthers(rs, name, f);
    var ix' := UpdateUser(ix, email, name, mask, opt, listpw, subpw);
    assert RecsOf(ix', key) == Put(rs, name, f);
    forall k | k != key ensures RecsOf(ix', k) == RecsOf(ix, k) {
    }
  }

  // ---------------------------------------------------------------- loops over users

  function NewIf(on: bool, f: Fields, role: bv16, opt: UpdateOption, listpw: string): Fields
  {
    if on then NewFields(f, role, opt, Some(listpw), None) else f
  }

  lemma NewTwice(f: Fields, role: bv16, opt: UpdateOption, listpw: string)
    requires opt == UR_OR || opt == UR_CLEARBIT
    ensures var g := NewFields(f, role, opt, Some(listpw), None);
            NewFields(g, role, opt, Some(listpw), None) == g
  {
    hide CombineMask;
    MaskTwice(f.mask, role, opt);
    TrimAgain(Fields(CombineMask(f.mask, role, opt), listpw, f.subpw), None);
  }

  lemma MaskTwice(m: bv16, role: bv16, opt: UpdateOption)
    requires opt == UR_OR || opt == UR_CLEARBIT
    ensures CombineMask(CombineMask(m, role, opt), role, opt) == CombineMask(m, role, opt)
  {
    hide CombineMask;
    if opt == UR_OR {
      OrTwice(m, role);
    } else {
      ClearTwice(m, role);
    }
  }

  lemma OrTwice(m: bv16, role: bv16)
    ensures CombineMask(CombineMask(m, role, UR_OR), role, UR_OR) == CombineMask(m, role, UR_OR)
  {
  }

  lemma ClearTwice(m: bv16, role: bv16)
    ensures CombineMask(CombineMask(m, role, UR_CLEARBIT), role, UR_CLEARBIT) == CombineMask(m, role, UR_CLEARBIT)
  {
  }

  lemma TrimAgain(f: Fields, subpw: Option<string>)
    ensures Trim(Fields(f.mask, f.listpw, Or(subpw, Trim(f).subpw))) ==
            Trim(Fields(f.mask, f.listpw, Or(subpw, f.subpw)))
    ensures Trim(Fields(f.mask, Trim(f).listpw, Or(subpw, f.subpw))) ==
            Trim(Fields(f.mask, f.listpw, Or(subpw, f.subpw)))
  {
  }

  lemma HasEmailLast(emails: seq<string>, key: string)
    requires emails != []
    ensures var n := |emails| - 1;
            HasEmail(emails, key) <==> Locase(emails[n]) == key || HasEmail(emails[..n], key)
  {
    var n := |emails| - 1;
    if HasEmail(emails, key) {
      var i :| 0 <= i < |emails| && Locase(emails[i]) == key;
      assert i < n ==> emails[..n][i] == emails[i];
    }
  }

  /** Popping through an address list updates each listed user once in effect. */
  lemma {:induction false} UsersUpdated(ix: Index, emails: seq<string>, name: string, role: bv16,
                                        opt: UpdateOption, listpw: string)
    requires ValidIndex(ix) && ValidName(name) && ValidListPw(listpw)
    requires opt == UR_OR || opt == UR_CLEARBIT
    ensures var ix' := UpdateUsers(ix, emails, name, role, opt, listpw);
            && ValidIndex(ix') && SameOthers(ix', ix, name)
            && forall key :: FieldsIn(ix', name, key) ==
                             NewIf(HasEmail(emails, key), FieldsIn(ix, name, key), role, opt, listpw)
    decreases |emails|
  {
    hide NewFields, FieldsIn, UpdateUser, ValidIndex, ValidName, Others, RecsOf, Locase;
    if emails != [] {
      var n := |emails| - 1;
      var mid := UpdateUser(ix, emails[n], name, role, opt, Some(listpw), None);
      assert ValidPasswords(Some(listpw), None);
      UserUpdated(ix, emails[n], name, role, opt, Some(listpw), None);
      UsersUpdated(mid, emails[..n], name, role, opt, listpw);
      var ix' := UpdateUsers(ix, emails, name, role, opt, listpw);
      forall key
        ensures FieldsIn(ix', name, key) ==
                NewIf(HasEmail(emails, key), FieldsIn(ix, name, key), role, opt, listpw)
      {
        HasEmailLast(emails, key);
        NewTwice(FieldsIn(ix, name, key), role, opt, listpw);
      }
    }
  }

  lemma SubscribedLast(subs: seq<Subscriber>, key: string)
    requires subs != []
    ensures var n := |subs| - 1;
            Subscribed(subs, key) <==> Locase(subs[n].email) == key || Subscribed(subs[..n], key)
  {
    var n := |subs| - 1;
    if Subscribed(subs, key) {
      var i :| 0 <= i < |subs| && Locase(subs[i].email) == key;
      assert i < n ==> subs[..n][i] == subs[i];
    }
  }

  function SubscribeIf(on: bool, f: Fields, pw: string): Fields
  {
    if on then NewFields(f, UR_SUBSCRIBER, UR_OR, None, Some(pw)) else f
  }

  lemma SubscribeTwice(f: Fields, pw: string, pw': string)
    ensures NewFields(NewFields(f, UR_SUBSCRIBER, UR_OR, None, Some(pw)), UR_SUBSCRIBER, UR_OR, None, Some(pw')) ==
            NewFields(f, UR_SUBSCRIBER, UR_OR, None, Some(pw'))
  {
    hide CombineMask;
    MaskTwice(f.mask, UR_SUBSCRIBER, UR_OR);
    TrimAgain(Fields(CombineMask(f.mask, UR_SUBSCRIBER, UR_OR), f.listpw, pw), Some(pw'));
  }

  lemma {:induction false} SubscribersAdded(ix: Index, subs: seq<Subscriber>, name: string)
    requires ValidIndex(ix) && ValidName(name)
    requires forall i :: 0 <= i < |subs| ==> ValidSubPw(subs[i].password)
    ensures var ix' := AddSubscribers(ix, subs, name);
            && ValidIndex(ix') && SameOthers(ix', ix, name)
            && forall key :: FieldsIn(ix', name, key) ==
                             SubscribeIf(Subscribed(subs, key), FieldsIn(ix, name, key), SubscriberPw(subs, key))
  {
    hide NewFields, FieldsIn, UpdateUser, ValidIndex, ValidName, Others, RecsOf, Locase, ValidSubPw;
    if subs != [] {
      var n := |subs| - 1;
      var mid := AddSubscribers(ix, subs[..n], name);
      SubscribersAdded(ix, subs[..n], name);
      assert ValidPasswords(None, Some(subs[n].password));
      UserUpdated(mid, subs[n].email, name, UR_SUBSCRIBER, UR_OR, None, Some(subs[n].password));
      var ix' := AddSubscribers(ix, subs, name);
      forall key
        ensures FieldsIn(ix', name, key) ==
                SubscribeIf(Subscribed(subs, key), FieldsIn(ix, name, key), SubscriberPw(subs, key))
      {
        SubscribedLast(subs, key);
        SubscribeTwice(FieldsIn(ix, name, key), SubscriberPw(subs[..n], key), subs[n].password);
      }
    }
  }

  // ---------------------------------------------------------------- rebuild

  function AdminsOn(f: Fields, l: ListInfo, key: string): Fields
  {
    var a := NewIf(HasEmail(l.owner, key), f, UR_OWNER, UR_OR, l.password);
    var b := NewIf(HasEmail(l.errorsTo, key), a, UR_ERRORS_TO, UR_OR, l.password);
    var c := NewIf(HasEmail(l.moderators, key), b, UR_MODERATOR, UR_OR, l.password);
    NewIf(HasEmail(l.subscrManagers, key), c, UR_SUB_MGR, UR_OR, l.password)
  }

  lemma AdminsAdded(ix: Index, l: ListInfo)
    requires ValidIndex(ix) && ValidList(l)
    ensures var ix' := AddAdmins(ix, l);
            && ValidIndex(ix') && SameOthers(ix', ix, l.alias)
            && forall key :: FieldsIn(ix', l.alias, key) == AdminsOn(FieldsIn(ix, l.alias, key), l, key)
  {
    hide NewIf, FieldsIn, UpdateUsers, ValidIndex, ValidName, Others, RecsOf, HasEmail;
    var a := UpdateUsers(ix, l.owner, l.alias, UR_OWNER, UR_OR, l.password);
    UsersUpdated(ix, l.owner, l.alias, UR_OWNER, UR_OR, l.password);
    var b := UpdateUsers(a, l.errorsTo, l.alias, UR_ERRORS_TO, UR_OR, l.password);
    UsersUpdated(a, l.errorsTo, l.alias, UR_ERRORS_TO, UR_OR, l.password);
    var c := UpdateUsers(b, l.moderators, l.alias, UR_MODERATOR, UR_OR, l.password);
    UsersUpdated(b, l.moderators, l.alias, UR_MODERATOR, UR_OR, l.password);
    UsersUpdated(c, l.subscrManagers, l.alias, UR_SUB_MGR, UR_OR, l.password);
  }

  /** Adding an administrator role to fields that hold the list password whenever
      they hold such a role. */
  lemma AdminRoleAdded(m: bv16, role: bv16, pw: string, listpw: string, subpw: string)
    requires role & !UR_SUBSCRIBER != 0 && role & UR_SUBSCRIBER == 0
    requires m & UR_SUBSCRIBER == 0 ==> subpw == ""
    ensures NewFields(Fields(m, pw, subpw), role, UR_OR, Some(listpw), None) == Fields(m | role, listpw, subpw)
  {
  }

  /** From nothing, or from the mirror with an older password, adding the
      administrators gives the administrators' part of the mirror. */
  lemma AdminsMirrored(l: ListInfo, key: string, pw: string, sub: bv16, subpw: string)
    requires sub == 0 || sub == UR_SUBSCRIBER
    requires sub == 0 ==> subpw == ""
    ensures var admin := AdminMask(l, key);
            && AdminsOn(Fields(sub, "", subpw), l, key) ==
               Fields(admin | sub, if admin == 0 then "" else l.password, subpw)
            && AdminsOn(Fields(admin | sub, if admin == 0 then "" else pw, subpw), l, key) ==
               Fields(admin | sub, if admin == 0 then "" else l.password, subpw)
  {
    hide HasEmail;
    var o, e, m, s := HasEmail(l.owner, key), HasEmail(l.errorsTo, key),
                      HasEmail(l.moderators, key), HasEmail(l.subscrManagers, key);
    AdminSteps(o, e, m, s, "", l.password, sub, subpw, sub);
    var admin := AdminMask(l, key);
    AdminSteps(o, e, m, s, if admin == 0 then "" else pw, l.password, admin | sub, subpw, sub);
  }

  function AdminBits(o: bool, e: bool, m: bool, s: bool): bv16
  {
    RoleIf(o, UR_OWNER) | RoleIf(e, UR_ERRORS_TO) | RoleIf(m, UR_MODERATOR) | RoleIf(s, UR_SUB_MGR)
  }

  lemma AdminSteps(o: bool, e: bool, m: bool, s: bool, pw: string, listpw: string,
                   start: bv16, subpw: string, sub: bv16)
    requires sub == 0 || sub == UR_SUBSCRIBER
    requires sub == 0 ==> subpw == ""
    requires start == sub || start == AdminBits(o, e, m, s) | sub
    requires AdminBits(o, e, m, s) == 0 ==> pw == ""
    ensures var a := NewIf(o, Fields(start, pw, subpw), UR_OWNER, UR_OR, listpw);
            var b := NewIf(e, a, UR_ERRORS_TO, UR_OR, listpw);
            var c := NewIf(m, b, UR_MODERATOR, UR_OR, listpw);
            NewIf(s, c, UR_SUB_MGR, UR_OR, listpw) ==
            Fields(AdminBits(o, e, m, s) | sub, if AdminBits(o, e, m, s) == 0 then "" else listpw, subpw)
  {
    hide NewFields;
    var m0 := start;
    var m1 := m0 | RoleIf(o, UR_OWNER);
    var m2 := m1 | RoleIf(e, UR_ERRORS_TO);
    var m3 := m2 | RoleIf(m, UR_MODERATOR);
    AdminRoleAdded(m0, UR_OWNER, pw, listpw, subpw);
    AdminRoleAdded(m1, UR_ERRORS_TO, if o then listpw else pw, listpw, subpw);
    AdminRoleAdded(m2, UR_MODERATOR, if o || e then listpw else pw, listpw, subpw);
    AdminRoleAdded(m3, UR_SUB_MGR, if o || e || m then listpw else pw, listpw, subpw);
  }

  lemma SubscriberMirrored(admin: bv16, listpw: string, sub: bool, pw: string)
    requires admin & UR_SUBSCRIBER == 0
    requires admin == 0 ==> listpw == ""
    ensures SubscribeIf(sub, Fields(admin, listpw, ""), pw) ==
            Fields(WithSubscriber(admin, sub), listpw, if sub then pw else "")
  {
  }

  lemma AllCleared(f: Fields)
    ensures NewFields(f, UR_ALL, UR_CLEARBIT, None, None) == NO_FIELDS
  {
  }

  /** A full delete clears the mask bits of the list's entry in every record. */
  lemma FullyDeleted(ix: Index, name: string, usermask: bv16)
    requires ValidIndex(ix) && ValidName(name)
    ensures var ix' := FullDelete(ix, name, usermask);
            && ValidIndex(ix') && SameOthers(ix', ix, name)
            && forall key :: FieldsIn(ix', name, key) ==
                             NewFields(FieldsIn(ix, name, key), usermask, UR_CLEARBIT, None, None)
  {
    hide NewFields, Lookup, Put, ValidRecs, Others, ValidName;
    var ix' := FullDelete(ix, name, usermask);
    NoRecsValid();
    forall key
      ensures RecsOf(ix', key) == Cleared(RecsOf(ix, key), name, usermask)
      ensures ValidRecs(RecsOf(ix', key))
      ensures Others(RecsOf(ix', key), name) == Others(RecsOf(ix, key), name)
      ensures FieldsIn(ix', name, key) == NewFields(FieldsIn(ix, name, key), usermask, UR_CLEARBIT, None, None)
    {
      var rs := RecsOf(ix, key);
      var f := NewFields(Or(Lookup(rs, name), NO_FIELDS), usermask, UR_CLEARBIT, None, None);
      UpdateIsMapUpdate(rs, name, usermask, UR_CLEARBIT, None, None, name);
      NoFieldsWithoutMask(rs, name, Or(Lookup(rs, name), NO_FIELDS), usermask, UR_CLEARBIT, None, None);
      PutKeepsOthers(rs, name, f);
      ClearedNothing(name, usermask);
    }
    forall key | key in ix' ensures ix'[key] != [] && ValidRecs(ix'[key]) {
      assert RecsOf(ix', key) == ix'[key];
    }
  }

  lemma ClearedNothing(name: string, usermask: bv16)
    ensures Cleared([], name, usermask) == []
  {
  }

  /** Whatever the database held, deleting a list in full and adding it again
      makes the index mirror the list, and leaves every other list's records alone. */
  lemma RebuildMirrors(ix: Index, l: ListInfo)
    requires ValidIndex(ix) && ValidList(l)
    ensures var ix' := AddEmailList(FullDelete(ix, l.alias, UR_ALL), l);
            ValidIndex(ix') && Agrees(ix', l) && SameOthers(ix', ix, l.alias)
  {
    hide NewFields, FieldsIn, ValidIndex, ValidName, Others, RecsOf, Mirror,
         FullDelete, AddAdmins, AddSubscribers, Subscribed, SubscriberPw, AdminsOn, SubscribeIf;
    var a := FullDelete(ix, l.alias, UR_ALL);
    FullyDeleted(ix, l.alias, UR_ALL);
    var b := AddAdmins(a, l);
    AdminsAdded(a, l);
    SubscribersAdded(b, l.subscribers, l.alias);
    var ix' := AddEmailList(a, l);
    forall key ensures FieldsIn(ix', l.alias, key) == Mirror(l, key) {
      AllCleared(FieldsIn(ix, l.alias, key));
      KeyRebuilt(l, key);
    }
  }

  lemma AdminsFromNothing(l: ListInfo, key: string)
    ensures var admin := AdminMask(l, key);
            AdminsOn(NO_FIELDS, l, key) == Fields(admin, if admin == 0 then "" else l.password, "")
  {
    hide AdminsOn, AdminMask;
    AdminsMirrored(l, key, "", 0, "");
    AdminMaskIsAdmin(l, key);
  }

  lemma KeyRebuilt(l: ListInfo, key: string)
    ensures SubscribeIf(Subscribed(l.subscribers, key), AdminsOn(NO_FIELDS, l, key),
            SubscriberPw(l.subscribers, key)) ==
            Mirror(l, key)
  {
    hide AdminsOn, AdminMask, SubscribeIf, Subscribed, SubscriberPw, WithSubscriber;
    var admin := AdminMask(l, key);
    AdminsFromNothing(l, key);
    AdminMaskIsAdmin(l, key);
    SubscriberMirrored(admin, if admin == 0 then "" else l.password,
                       Subscribed(l.subscribers, key), SubscriberPw(l.subscribers, key));
  }

  lemma AdminMaskIsAdmin(l: ListInfo, key: string)
    ensures AdminMask(l, key) & UR_SUBSCRIBER == 0
    ensures AdminMask(l, key) | 0 == AdminMask(l, key)
  {
  }

  /** After the list password changes, adding the administrators again is enough
      to make the index mirror the list. */
  lemma PasswordChangeRepaired(ix: Index, l: ListInfo, pw: string)
    requires ValidIndex(ix) && ValidList(l) && ValidListPw(pw) && Agrees(ix, l)
    ensures var l' := l.(password := pw);
            var ix' := AddAdmins(ix, l');
            ValidIndex(ix') && Agrees(ix', l') && SameOthers(ix', ix, l.alias)
  {
    hide FieldsIn, ValidIndex, Others, RecsOf, AddAdmins, AdminsOn, Mirror;
    var l' := l.(password := pw);
    AdminsAdded(ix, l');
    var ix' := AddAdmins(ix, l');
    forall key ensures FieldsIn(ix', l'.alias, key) == Mirror(l', key) {
      assert FieldsIn(ix, l.alias, key) == Mirror(l, key);
      KeyRepaired(l, pw, key);
    }
  }

  lemma KeyRepaired(l: ListInfo, pw: string, key: string)
    ensures AdminsOn(Mirror(l, key), l.(password := pw), key) == Mirror(l.(password := pw), key)
  {
    hide AdminsOn, Subscribed, SubscriberPw, HasEmail, AdminMask, WithSubscriber;
    AdminMaskOfPassword(l, pw, key);
    var sub := Subscribed(l.subscribers, key);
    AdminsRepaired(l.(password := pw), key, l.password, sub,
                   if sub then SubscriberPw(l.subscribers, key) else "");
  }

  lemma AdminsRepaired(l: ListInfo, key: string, pw: string, sub: bool, subpw: string)
    requires !sub ==> subpw == ""
    ensures var admin := AdminMask(l, key);
            var m := WithSubscriber(admin, sub);
            AdminsOn(Fields(m, if admin == 0 then "" else pw, subpw), l, key) ==
            Fields(m, if admin == 0 then "" else l.password, subpw)
  {
    hide AdminsOn, AdminMask;
    AdminsMirrored(l, key, pw, RoleIf(sub, UR_SUBSCRIBER), subpw);
  }

  lemma AdminMaskOfPassword(l: ListInfo, pw: string, key: string)
    ensures AdminMask(l.(password := pw), key) == AdminMask(l, key)
  {
  }
}
