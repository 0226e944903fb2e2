/** The session table, the user table and the event writes.  Both labs carry
    their own copy of the helpers modelled here; those copies differ only in the
    kind names, which are therefore parameters.  The two helpers whose copies
    differ in behaviour, Lab2's expiring `_search_session` and each lab's
    `_create_session`, live in the Lab2 and Lab3 modules. */
module Tables {
  import opened Wrappers
  import opened Seqs
  import opened Calendar
  import opened Datastore

  /** Every stored session has a parent key, whose id is its owner. */
  predicate WellFormed(es: seq<Entity>)
  {
    forall e :: e in es && e.props.SessionProps? ==> e.key.parent.Some?
  }

  /** The id of the key an entity is stored under (`event.key.parent.id`). */
  function Owner(e: Entity): int
    requires e.key.parent.Some?
  {
    e.key.parent.value.id
  }

  /** Python's `not v` on the id a lookup answers: `None`, `False` and `0` are
      all false. */
  predicate Falsy(v: Option<int>) { v.None? || v.value == 0 }

  lemma WellFormedAppend(es: seq<Entity>, e: Entity)
    requires WellFormed(es) && (e.props.SessionProps? ==> e.key.parent.Some?)
    ensures WellFormed(es + [e])
  {
  }

  lemma WellFormedFilter(es: seq<Entity>, p: Entity -> bool)
    requires WellFormed(es)
    ensures WellFormed(Filter(es, p))
  {
    FilterMembers(es, p);
  }

  // ---------------------------------------------------------------- sessions

  /** An entity the query `kind = kind, token = token` fetches. */
  predicate IsSession(e: Entity, kind: string, token: string)
  {
    e.key.kind == kind && e.props.SessionProps? && e.props.token == token
  }

  function SessionTest(kind: string, token: string): Entity -> bool
  {
    (e: Entity) => IsSession(e, kind, token)
  }

  function OtherTest(kind: string, token: string): Entity -> bool
  {
    (e: Entity) => !IsSession(e, kind, token)
  }

  /** The fetched sessions with the token, in fetch order. */
  function Sessions(es: seq<Entity>, kind: string, token: string): (r: seq<Entity>)
    ensures forall e :: e in r <==> e in es && IsSession(e, kind, token)
  {
    FilterMembers(es, SessionTest(kind, token));
    Filter(es, SessionTest(kind, token))
  }

  /** The store once every session with the token is gone. */
  function WithoutSessions(es: seq<Entity>, kind: string, token: string): (r: seq<Entity>)
    ensures forall e :: e in r <==> e in es && !IsSession(e, kind, token)
  {
    FilterMembers(es, OtherTest(kind, token));
    Filter(es, OtherTest(kind, token))
  }

  /** The lookup of `_search_session`: the owner id of the first session with
      the token, or `None` where the source answers `False`. */
  function SessionOwner(es: seq<Entity>, kind: string, token: string): (r: Option<int>)
    requires WellFormed(es)
    ensures r.None? <==> forall e :: e in es ==> !IsSession(e, kind, token)
    ensures r.Some? ==> exists i :: IsFirst(es, SessionTest(kind, token), i) && Owner(es[i]) == r.value
  {
    var m := Sessions(es, kind, token);
    if |m| == 0 then None
    else
      FilterHeadExists(es, SessionTest(kind, token));
      Some(Owner(m[0]))
  }

  /** `_del_session`: collect the keys of every session with the token, then
      delete them one by one. */
  method DelSession(ds: Store, kind: string, token: string)
    requires ds.Valid()
    modifies ds
    ensures ds.Valid() && ds.nextId == old(ds.nextId)
    ensures ds.entities == WithoutSessions(old(ds.entities), kind, token)
  {
    var found := Sessions(ds.entities, kind, token);
    var keys: seq<Key> := [];
    for i := 0 to |found|
      invariant |keys| == i
      invariant forall j :: 0 <= j < i ==> keys[j] == found[j].key
    {
      keys := keys + [found[i].key];
    }
    ghost var start := ds.entities;
    NoKeysDeleted(start);
    for i := 0 to |keys|
      invariant ds.Valid() && ds.nextId == old(ds.nextId)
      invariant ds.entities == Filter(start, KeyNotIn(keys[..i]))
    {
      ds.Delete(keys[i]);
      DeleteNextKey(start, keys, i);
    }
    assert keys[..|keys|] == keys;
    SessionKeys(start, found, keys, kind, token);
  }

  /** With unique ids, an entity's key is among the collected session keys
      exactly when it is one of those sessions. */
  lemma SessionKeys(es: seq<Entity>, found: seq<Entity>, keys: seq<Key>, kind: string, token: string)
    requires UniqueIds(es) && found == Sessions(es, kind, token)
    requires |keys| == |found| && forall j :: 0 <= j < |found| ==> keys[j] == found[j].key
    ensures Filter(es, KeyNotIn(keys)) == WithoutSessions(es, kind, token)
  {
    forall x | x in es ensures KeyNotIn(keys)(x) == OtherTest(kind, token)(x) {
      if x.key in keys {
        var j :| 0 <= j < |keys| && keys[j] == x.key;
        assert found[j] in es;
      }
    }
    FilterExt(es, KeyNotIn(keys), OtherTest(kind, token));
  }

  /** `_create_session` minus the token and expiry choice: a session entity
      under the owner's user key. */
  method PutSession(ds: Store, sessionKind: string, userKind: string, owner: int, token: string, expire: int)
    requires ds.Valid()
    modifies ds
    ensures ds.Valid() && ds.nextId == old(ds.nextId) + 1
    ensures ds.entities == old(ds.entities) + [SessionEntity(sessionKind, userKind, old(ds.nextId), owner, token, expire)]
    ensures WellFormed(old(ds.entities)) ==> WellFormed(ds.entities)
  {
    var id := ds.Put(sessionKind, Some(Key(userKind, owner, None)), SessionProps(token, expire));
  }

  function SessionEntity(sessionKind: string, userKind: string, id: int, owner: int, token: string, expire: int): Entity
  {
    Entity(Key(sessionKind, id, Some(Key(userKind, owner, None))), SessionProps(token, expire))
  }

  /** A new session is what the lookup finds when no earlier session has its
      token; otherwise the earlier one still answers. */
  lemma SessionOwnerAfterPut(es: seq<Entity>, sessionKind: string, userKind: string, id: int, owner: int, token: string, expire: int)
    requires WellFormed(es)
    ensures WellFormed(es + [SessionEntity(sessionKind, userKind, id, owner, token, expire)])
    ensures var after := SessionOwner(es + [SessionEntity(sessionKind, userKind, id, owner, token, expire)], sessionKind, token);
      after == if SessionOwner(es, sessionKind, token).None? then Some(owner) else SessionOwner(es, sessionKind, token)
  {
    var e := SessionEntity(sessionKind, userKind, id, owner, token, expire);
    FilterAppend(es, [e], SessionTest(sessionKind, token));
    assert Filter([e], SessionTest(sessionKind, token)) == [e] + Filter([e][1..], SessionTest(sessionKind, token));
  }

  /** After `_del_session` no session with the token is found. */
  lemma NoOwnerAfterDelete(es: seq<Entity>, kind: string, token: string)
    requires WellFormed(es)
    ensures WellFormed(WithoutSessions(es, kind, token))
    ensures SessionOwner(WithoutSessions(es, kind, token), kind, token) == None
  {
  }

  // ---------------------------------------------------------------- users

  /** An entity the query `kind = kind, uname = uname` fetches. */
  predicate IsUserNamed(e: Entity, kind: string, uname: string)
  {
    e.key.kind == kind && e.props.UserProps? && e.props.uname == uname
  }

  /** An entity the query `kind = kind, uname = uname, passwd = passwd` fetches. */
  predicate IsAccount(e: Entity, kind: string, uname: string, passwd: string)
  {
    IsUserNamed(e, kind, uname) && e.props.passwd == passwd
  }

  function NamedTest(kind: string, uname: string): Entity -> bool
  {
    (e: Entity) => IsUserNamed(e, kind, uname)
  }

  function AccountTest(kind: string, uname: string, passwd: string): Entity -> bool
  {
    (e: Entity) => IsAccount(e, kind, uname, passwd)
  }

  /** `_search_user`: is some user called `uname` stored? */
  function SearchUser(es: seq<Entity>, kind: string, uname: string): (r: bool)
    ensures r <==> exists e :: e in es && IsUserNamed(e, kind, uname)
  {
    var m := Filter(es, NamedTest(kind, uname));
    FilterMembers(es, NamedTest(kind, uname));
    assert |m| > 0 ==> m[0] in m;
    |m| > 0
  }

  /** `_verify_user`: the id of the first user whose name and password both
      match, or `None`. */
  function VerifyUser(es: seq<Entity>, kind: string, uname: string, passwd: string): (r: Option<int>)
    ensures r.None? <==> forall e :: e in es ==> !IsAccount(e, kind, uname, passwd)
    ensures r.Some? ==> exists i :: IsFirst(es, AccountTest(kind, uname, passwd), i) && es[i].key.id == r.value
  {
    var m := Filter(es, AccountTest(kind, uname, passwd));
    FilterMembers(es, AccountTest(kind, uname, passwd));
    if |m| == 0 then None
    else
      FilterHeadExists(es, AccountTest(kind, uname, passwd));
      Some(m[0].key.id)
  }

  function UserEntity(kind: string, id: int, uname: string, passwd: string): Entity
  {
    Entity(Key(kind, id, None), UserProps(uname, passwd))
  }

  /** `_add_user`: nothing happens and `None` comes back when the name is
      taken; otherwise exactly one user is appended and its new id returned. */
  method AddUser(ds: Store, kind: string, uname: string, passwd: string) returns (r: Option<int>)
    requires ds.Valid()
    modifies ds
    ensures ds.Valid()
    ensures SearchUser(old(ds.entities), kind, uname) ==>
      r.None? && ds.entities == old(ds.entities) && ds.nextId == old(ds.nextId)
    ensures !SearchUser(old(ds.entities), kind, uname) ==>
      && r == Some(old(ds.nextId)) && ds.nextId == old(ds.nextId) + 1
      && ds.entities == old(ds.entities) + [UserEntity(kind, r.value, uname, passwd)]
    ensures WellFormed(old(ds.entities)) ==> WellFormed(ds.entities)
  {
    if SearchUser(ds.entities, kind, uname) {
      return None;
    }
    var id := ds.Put(kind, None, UserProps(uname, passwd));
    r := Some(id);
  }

  /** A user just added is found by name, and by name and password. */
  lemma FoundAfterAdd(es: seq<Entity>, kind: string, id: int, uname: string, passwd: string)
    requires !SearchUser(es, kind, uname)
    ensures SearchUser(es + [UserEntity(kind, id, uname, passwd)], kind, uname)
    ensures VerifyUser(es + [UserEntity(kind, id, uname, passwd)], kind, uname, passwd) == Some(id)
  {
    var u := UserEntity(kind, id, uname, passwd);
    assert u in es + [u];
    NoAccountWithoutName(es, kind, uname, passwd);
    FilterAppend(es, [u], AccountTest(kind, uname, passwd));
    assert Filter([u], AccountTest(kind, uname, passwd)) == [u] + Filter([u][1..], AccountTest(kind, uname, passwd));
    assert Filter(es + [u], AccountTest(kind, uname, passwd)) == [u];
  }

  lemma NoAccountWithoutName(es: seq<Entity>, kind: string, uname: string, passwd: string)
    requires !SearchUser(es, kind, uname)
    ensures Filter(es, AccountTest(kind, uname, passwd)) == []
  {
  }

  /** A password that differs from the stored one is refused. */
  lemma WrongPasswordRefused(es: seq<Entity>, kind: string, id: int, uname: string, passwd: string, other: string)
    requires !SearchUser(es, kind, uname) && other != passwd
    ensures VerifyUser(es + [UserEntity(kind, id, uname, passwd)], kind, uname, other) == None
  {
    forall e | e in es + [UserEntity(kind, id, uname, passwd)] ensures !IsAccount(e, kind, uname, other) {
      if e in es {
        assert !IsUserNamed(e, kind, uname);
      }
    }
  }

  // ---------------------------------------------------------------- events

  /** The key `DS.key(userKind, owner, eventKind, id)`. */
  function EventKey(eventKind: string, userKind: string, id: int, owner: int): Key
  {
    Key(eventKind, id, Some(Key(userKind, owner, None)))
  }

  function EventEntity(eventKind: string, userKind: string, id: int, owner: int, name: string, date: Date): Entity
  {
    Entity(EventKey(eventKind, userKind, id, owner), EventProps(name, date))
  }

  /** `_add_event`: an event under the owner's user key; its new id is returned. */
  method AddEventEntity(ds: Store, eventKind: string, userKind: string, owner: int, name: string, date: Date)
    returns (id: int)
    requires ds.Valid()
    modifies ds
    ensures ds.Valid()
    ensures id == old(ds.nextId) && ds.nextId == old(ds.nextId) + 1
    ensures ds.entities == old(ds.entities) + [EventEntity(eventKind, userKind, id, owner, name, date)]
    ensures WellFormed(old(ds.entities)) ==> WellFormed(ds.entities)
  {
    id := ds.Put(eventKind, Some(Key(userKind, owner, None)), EventProps(name, date));
  }

  /** `_del_event`: delete the event key built from the owner and the id. */
  method DelEventEntity(ds: Store, eventKind: string, userKind: string, id: int, owner: int)
    requires ds.Valid()
    modifies ds
    ensures ds.Valid() && ds.nextId == old(ds.nextId)
    ensures ds.entities == Filter(old(ds.entities), KeyIsNot(EventKey(eventKind, userKind, id, owner)))
    ensures WellFormed(old(ds.entities)) ==> WellFormed(ds.entities)
  {
    ds.Delete(EventKey(eventKind, userKind, id, owner));
    FilterMembers(old(ds.entities), KeyIsNot(EventKey(eventKind, userKind, id, owner)));
  }

  /** Deleting an event by the id its insertion returned restores the store. */
  lemma AddThenDelete(es: seq<Entity>, eventKind: string, userKind: string, id: int, owner: int, name: string, date: Date)
    requires forall e :: e in es ==> e.key.id < id
    ensures Filter(es + [EventEntity(eventKind, userKind, id, owner, name, date)], KeyIsNot(EventKey(eventKind, userKind, id, owner))) == es
  {
    var e := EventEntity(eventKind, userKind, id, owner, name, date);
    FilterAppend(es, [e], KeyIsNot(e.key));
    DeleteAbsent(es, e.key);
    assert Filter([e], KeyIsNot(e.key)) == [] + Filter([e][1..], KeyIsNot(e.key));
  }

  /** Deleting with another owner's key leaves an event in place. */
  lemma OtherOwnerKeepsEvent(es: seq<Entity>, eventKind: string, userKind: string, id: int, owner: int, name: string, date: Date, other: int)
    requires EventEntity(eventKind, userKind, id, owner, name, date) in es && other != owner
    ensures EventEntity(eventKind, userKind, id, owner, name, date) in Filter(es, KeyIsNot(EventKey(eventKind, userKind, id, other)))
  {
    FilterMember(es, KeyIsNot(EventKey(eventKind, userKind, id, other)), EventEntity(eventKind, userKind, id, owner, name, date));
  }
}
