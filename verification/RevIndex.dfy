/** The reverse user index of lplib/lprevdbm.c: a database from lower-cased
    email addresses to record texts.  Berkeley DB is a map with a cursor. */
module RevIndex {
  import opened Text
  import opened RevRecords
  import opened RevUpdate
  import opened Buffers

  datatype Subscriber = Subscriber(email: string, password: string)

  /** The part of a list that the index mirrors.  Address lists come in the
      order of the configuration text. */
  datatype ListInfo = ListInfo(alias: string, password: string,
                               owner: seq<string>, errorsTo: seq<string>,
                               moderators: seq<string>, subscrManagers: seq<string>,
                               subscribers: seq<Subscriber>)

  predicate ValidList(l: ListInfo)
  {
    && ValidName(l.alias) && ValidListPw(l.password)
    && forall i :: 0 <= i < |l.subscribers| ==> ValidSubPw(l.subscribers[i].password)
  }

  // ---------------------------------------------------------------- the index as a map

  type Index = map<string, seq<Rec>>

  predicate ValidIndex(ix: Index)
  {
    forall k :: k in ix ==> ix[k] != [] && ValidRecs(ix[k])
  }

  function RecsOf(ix: Index, key: string): seq<Rec> { if key in ix then ix[key] else [] }

  /** Users without data are not kept. */
  function SetRecs(ix: Index, key: string, rs: seq<Rec>): Index
  {
    if rs == [] then ix - {key} else ix[key := rs]
  }

  function UpdateUser(ix: Index, email: string, name: string, mask: bv16, opt: UpdateOption,
                      listpw: Option<string>, subpw: Option<string>): Index
  {
    var key := Locase(email);
    SetRecs(ix, key, Update(RecsOf(ix, key), name, mask, opt, listpw, subpw))
  }

  /** Addresses are popped off the end of the list. */
  function UpdateUsers(ix: Index, emails: seq<string>, name: string, role: bv16, opt: UpdateOption,
                       listpw: string): Index
    decreases |emails|
  {
    if emails == [] then ix
    else
      var n := |emails| - 1;
      UpdateUsers(UpdateUser(ix, emails[n], name, role, opt, Some(listpw), None),
                  emails[..n], name, role, opt, listpw)
  }

  function AddAdmins(ix: Index, l: ListInfo): Index
  {
    var a := UpdateUsers(ix, l.owner, l.alias, UR_OWNER, UR_OR, l.password);
    var b := UpdateUsers(a, l.errorsTo, l.alias, UR_ERRORS_TO, UR_OR, l.password);
    var c := UpdateUsers(b, l.moderators, l.alias, UR_MODERATOR, UR_OR, l.password);
    UpdateUsers(c, l.subscrManagers, l.alias, UR_SUB_MGR, UR_OR, l.password)
  }

  function AddSubscribers(ix: Index, subs: seq<Subscriber>, name: string): Index
  {
    if subs == [] then ix
    else
      var n := |subs| - 1;
      UpdateUser(AddSubscribers(ix, subs[..n], name), subs[n].email, name,
                 UR_SUBSCRIBER, UR_OR, None, Some(subs[n].password))
  }

  function AddEmailList(ix: Index, l: ListInfo): Index
  {
    AddSubscribers(AddAdmins(ix, l), l.subscribers, l.alias)
  }

  function RemoveSubscribers(ix: Index, subs: seq<Subscriber>, name: string): Index
  {
    if subs == [] then ix
    else
      var n := |subs| - 1;
      UpdateUser(RemoveSubscribers(ix, subs[..n], name), subs[n].email, name,
                 UR_SUBSCRIBER, UR_CLEARBIT, None, None)
  }

  function RemoveIf(on: bool, ix: Index, emails: seq<string>, l: ListInfo, role: bv16): Index
  {
    if on then UpdateUsers(ix, emails, l.alias, role, UR_CLEARBIT, l.password) else ix
  }

  /** Only the users the list knows about are visited. */
  function FastDelete(ix: Index, l: ListInfo, usermask: bv16): Index
  {
    var s := if Has(usermask, UR_SUBSCRIBER) then RemoveSubscribers(ix, l.subscribers, l.alias) else ix;
    var a := RemoveIf(Has(usermask, UR_OWNER), s, l.owner, l, UR_OWNER);
    var b := RemoveIf(Has(usermask, UR_ERRORS_TO), a, l.errorsTo, l, UR_ERRORS_TO);
    var c := RemoveIf(Has(usermask, UR_MODERATOR), b, l.moderators, l, UR_MODERATOR);
    RemoveIf(Has(usermask, UR_SUB_MGR), c, l.subscrManagers, l, UR_SUB_MGR)
  }

  function Cleared(rs: seq<Rec>, name: string, usermask: bv16): seq<Rec>
  {
    Update(rs, name, usermask, UR_CLEARBIT, None, None)
  }

  /** Every record of the database is visited. */
  function FullDelete(ix: Index, name: string, usermask: bv16): Index
  {
    map k | k in ix && Cleared(ix[k], name, usermask) != [] :: Cleared(ix[k], name, usermask)
  }

  // ---------------------------------------------------------------- the database

  datatype DeleteOption = REVDB_FULL_DELETE | REVDB_FAST_DELETE

  lemma EncodeHasNoEos(rs: seq<Rec>)
    requires ValidRecs(rs) && rs != []
    ensures EOS !in Join(Lines(rs))
  {
    var ls := Lines(rs);
    forall i | 0 <= i < |ls| ensures EOS !in ls[i] {
      assert ValidRec(rs[i]);
      DecPlain(rs[i].fields.mask as nat);
    }
    JoinHasNo(ls, EOS);
  }

  lemma EncodeOfNone(rs: seq<Rec>)
    ensures Encode(rs).None? <==> rs == []
  {
  }

  lemma NoRecsValid()
    ensures ValidRecs([])
  {
  }

  /** The cursor has passed every key outside todo. */
  ghost predicate Swept(ix: Index, before: Index, todo: set<string>, name: string, usermask: bv16)
  {
    && ValidIndex(before)
    && forall k :: RecsOf(ix, k) ==
                   if k in before && k !in todo then Cleared(before[k], name, usermask) else RecsOf(before, k)
  }

  lemma SweepStep(ix: Index, before: Index, todo: set<string>, key: string, name: string, usermask: bv16)
    requires Swept(ix, before, todo, name, usermask) && key in todo && todo <= before.Keys
    ensures Swept(SetRecs(ix, key, Update(RecsOf(ix, key), name, usermask, UR_CLEARBIT, None, None)),
                  before, todo - {key}, name, usermask)
  {
    hide Update, ValidRecs;
    assert RecsOf(ix, key) == before[key];
  }

  lemma SweptAll(ix: Index, before: Index, name: string, usermask: bv16)
    requires Swept(ix, before, {}, name, usermask) && ValidIndex(ix)
    ensures ix == FullDelete(before, name, usermask)
  {
    hide Cleared, ValidRecs;
    var full := FullDelete(before, name, usermask);
    forall k ensures k in ix <==> k in full {
      assert k in ix <==> RecsOf(ix, k) != [];
    }
    forall k | k in ix ensures ix[k] == full[k] {
      assert RecsOf(ix, k) == ix[k];
    }
  }

  class RevDb {
    var db: map<string, string>
    ghost var index: Index

    ghost predicate Valid()
      reads this
    {
      && db.Keys == index.Keys
      && ValidIndex(index)
      && forall k :: k in db ==> Encode(index[k]) == Some(db[k])
    }

    constructor ()
      ensures Valid() && index == map[]
    {
      db, index := map[], map[];
    }

    /** revdb_get: a copy of the user's text in a new buffer, or NULL. */
    method GetKey(key: string) returns (data: array?<char>)
      requires Valid()
      ensures data == null <==> RecsOf(index, key) == []
      ensures data != null ==>
                fresh(data) && HasEos(data[..]) &&
                Some(CString(data[..], 0)) == Encode(RecsOf(index, key))
    {
      if key !in db {
        return null;
      }
      EncodeHasNoEos(index[key]);
      data := CopyText(db[key]);
    }

    /** revdb_get_list */
    method GetList(email: string, name: string) returns (r: Answer)
      requires Valid() && ValidName(name)
      ensures r == match Lookup(RecsOf(index, Locase(email)), name)
                   case None => Answer(FAILURE, 0, None, None)
                   case Some(f) => Answer(SUCCESS, f.mask, Some(f.listpw), Some(f.subpw))
    {
      ghost var rs := RecsOf(index, Locase(email));
      var data := GetKey(Locase(email));
      LookupTextRefines(rs, name);
      if data == null {
        return Answer(FAILURE, 0, None, None);
      }
      r := LookupIn(data, name);
    }

    /** Read, edit and store one user's text; a user without data is deleted. */
    method Rewrite(key: string, name: string, mask: bv16, opt: UpdateOption,
                   listpw: Option<string>, subpw: Option<string>)
      requires Valid() && ValidName(name) && ValidPasswords(listpw, subpw)
      modifies this
      ensures Valid()
      ensures index == SetRecs(old(index), key, Update(RecsOf(old(index), key), name, mask, opt, listpw, subpw))
    {
      hide Update, Encode, ValidRecs, CString, UpdateText, NewFields, Lookup, HasEos, ValidPasswords;
      ghost var rs := RecsOf(index, key);
      assert ValidRecs([]) by {
        NoRecsValid();
      }
      UpdateTextRefines(rs, name, mask, opt, listpw, subpw);
      UpdateIsMapUpdate(rs, name, mask, opt, listpw, subpw, name);
      EncodeOfNone(rs);
      var data := GetKey(key);
      var val := UpdateValue(data, name, mask, opt, listpw, subpw);
      ghost var rs' := Update(rs, name, mask, opt, listpw, subpw);
      EncodeOfNone(rs');
      if val.None? {
        db := db - {key};
        index := index - {key};
      } else {
        db := db[key := val.value];
        index := index[key := rs'];
      }
    }

    /** revdb_update_list */
    method UpdateList(email: string, name: string, mask: bv16, opt: UpdateOption,
                      listpw: Option<string>, subpw: Option<string>)
      requires Valid() && ValidName(name) && ValidPasswords(listpw, subpw)
      modifies this
      ensures Valid() && index == UpdateUser(old(index), email, name, mask, opt, listpw, subpw)
    {
      Rewrite(Locase(email), name, mask, opt, listpw, subpw);
    }

    /** revdb_add_list_users with UR_SETBIT, revdb_remove_list_users with UR_CLEARBIT */
    method UpdateListUsers(emails: seq<string>, name: string, role: bv16, opt: UpdateOption, listpw: string)
      requires Valid() && ValidName(name) && ValidListPw(listpw)
      modifies this
      ensures Valid() && index == UpdateUsers(old(index), emails, name, role, opt, listpw)
    {
      var pl := emails;
      while pl != []
        invariant Valid()
        invariant UpdateUsers(index, pl, name, role, opt, listpw) ==
                  UpdateUsers(old(index), emails, name, role, opt, listpw)
        decreases |pl|
      {
        var email := pl[|pl| - 1];
        pl := pl[..|pl| - 1];
        UpdateList(email, name, role, opt, Some(listpw), None);
      }
    }

    /** revdb_add_list_admins */
    method AddListAdmins(l: ListInfo)
      requires Valid() && ValidList(l)
      modifies this
      ensures Valid() && index == AddAdmins(old(index), l)
    {
      UpdateListUsers(l.owner, l.alias, UR_OWNER, UR_OR, l.password);
      UpdateListUsers(l.errorsTo, l.alias, UR_ERRORS_TO, UR_OR, l.password);
      UpdateListUsers(l.moderators, l.alias, UR_MODERATOR, UR_OR, l.password);
      UpdateListUsers(l.subscrManagers, l.alias, UR_SUB_MGR, UR_OR, l.password);
    }

    /** revdb_add_email_list */
    method AddList(l: ListInfo)
      requires Valid() && ValidList(l)
      modifies this
      ensures Valid() && index == AddEmailList(old(index), l)
    {
      AddListAdmins(l);
      ghost var start := index;
      var i := 0;
      while i < |l.subscribers|
        invariant 0 <= i <= |l.subscribers|
        invariant Valid() && index == AddSubscribers(start, l.subscribers[..i], l.alias)
      {
        var sub := l.subscribers[i];
        UpdateList(sub.email, l.alias, UR_SUBSCRIBER, UR_OR, None, Some(sub.password));
        assert l.subscribers[..i + 1][..i] == l.subscribers[..i];
        i := i + 1;
      }
      assert l.subscribers[..i] == l.subscribers;
    }

    method RemoveAllSubscribers(l: ListInfo)
      requires Valid() && ValidList(l)
      modifies this
      ensures Valid() && index == RemoveSubscribers(old(index), l.subscribers, l.alias)
    {
      var i := 0;
      while i < |l.subscribers|
        invariant 0 <= i <= |l.subscribers|
        invariant Valid() && index == RemoveSubscribers(old(index), l.subscribers[..i], l.alias)
      {
        UpdateList(l.subscribers[i].email, l.alias, UR_SUBSCRIBER, UR_CLEARBIT, None, None);
        assert l.subscribers[..i + 1][..i] == l.subscribers[..i];
        i := i + 1;
      }
      assert l.subscribers[..i] == l.subscribers;
    }

    /** revdb_delete_list */
    method DeleteList(l: ListInfo, usermask: bv16, flags: DeleteOption)
      requires Valid() && ValidList(l)
      modifies this
      ensures Valid()
      ensures index == if flags == REVDB_FAST_DELETE then FastDelete(old(index), l, usermask)
                       else FullDelete(old(index), l.alias, usermask)
    {
      if flags == REVDB_FAST_DELETE {
        if Has(usermask, UR_SUBSCRIBER) {
          RemoveAllSubscribers(l);
        }
        if Has(usermask, UR_OWNER) {
          UpdateListUsers(l.owner, l.alias, UR_OWNER, UR_CLEARBIT, l.password);
        }
        if Has(usermask, UR_ERRORS_TO) {
          UpdateListUsers(l.errorsTo, l.alias, UR_ERRORS_TO, UR_CLEARBIT, l.password);
        }
        if Has(usermask, UR_MODERATOR) {
          UpdateListUsers(l.moderators, l.alias, UR_MODERATOR, UR_CLEARBIT, l.password);
        }
        if Has(usermask, UR_SUB_MGR) {
          UpdateListUsers(l.subscrManagers, l.alias, UR_SUB_MGR, UR_CLEARBIT, l.password);
        }
      } else {
        ClearAll(l.alias, usermask);
      }
    }

    /** The cursor loop of the full delete, over the keys in any order. */
    method ClearAll(name: string, usermask: bv16)
      requires Valid() && ValidName(name)
      modifies this
      ensures Valid() && index == FullDelete(old(index), name, usermask)
    {
      hide Cleared, Encode, ValidRecs;
      var todo := db.Keys;
      ghost var before := index;
      while todo != {}
        invariant Valid() && todo <= before.Keys && Swept(index, before, todo, name, usermask)
        decreases |todo|
      {
        var key :| key in todo;
        SweepStep(index, before, todo, key, name, usermask);
        Rewrite(key, name, usermask, UR_CLEARBIT, None, None);
        todo := todo - {key};
      }
      SweptAll(index, before, name, usermask);
    }
  }
}
