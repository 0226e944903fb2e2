/** Lab3: the Google sign-in version of the calendar.  Sessions store the access
    token Google returns and are never checked for expiry.  Events are written
    and deleted under the Lab2 kinds but listed from the Lab3 kinds. */
module Lab3 {
  import opened Wrappers
  import opened Seqs
  import opened Text
  import opened Calendar
  import opened Datastore
  import opened Tables
  import opened Listing
  import opened Recurrence

  const UserKind := "Lab3-user"
  const SessionKind := "Lab3-session"
  /** The kinds `get_all` queries. */
  const ListedEventKind := "Lab3-event"
  const ListedUserKind := "Lab3-user"
  /** The kinds `_add_event` and `_del_event` build their keys from. */
  const WrittenEventKind := "Lab2-event"
  const WrittenUserKind := "Lab2-user"

  // ---------------------------------------------------------------- id_token

  /** The number of `=` that `'=' * (-len(body) % 4)` appends. */
  function PadCount(body: string): (k: int)
    ensures 0 <= k <= 3 && (|body| + k) % 4 == 0
  {
    (-|body|) % 4
  }

  /** `body += '=' * (-len(body) % 4)`. */
  function Pad(body: string): (r: string)
    ensures |r| % 4 == 0 && |body| <= |r| <= |body| + 3 && r[..|body|] == body
    ensures forall i :: |body| <= i < |r| ==> r[i] == '='
  {
    body + Repeat('=', PadCount(body))
  }

  /** `_, body, _ = id_token.split('.')` and the padding: the middle piece made
      a whole number of base64 quadruples, or the ValueError of an unpacking that
      does not find exactly three pieces. */
  function PaddedBody(idToken: string): (r: Result<string, Failure>)
    ensures r.Ok? <==> |Split(idToken, '.')| == 3
    ensures r.Err? ==> r.error == MalformedIdToken
    ensures r.Ok? ==> && |r.value| % 4 == 0
                      && var body := Split(idToken, '.')[1];
                         |body| <= |r.value| <= |body| + 3 && r.value[..|body|] == body
                         && forall i :: |body| <= i < |r.value| ==> r.value[i] == '='
  {
    var parts := Split(idToken, '.');
    if |parts| != 3 then Err(MalformedIdToken) else Ok(Pad(parts[1]))
  }

  /** A body already padded gets no more `=`. */
  lemma PadIdempotent(body: string)
    ensures Pad(Pad(body)) == Pad(body)
  {
    assert PadCount(Pad(body)) == 0;
    assert Repeat('=', 0) == "";
  }

  /** The three pieces of a JWT put back together pad their middle piece. */
  lemma PaddedBodyOfJoin(header: string, body: string, signature: string)
    requires '.' !in header && '.' !in body && '.' !in signature
    ensures PaddedBody(Join([header, body, signature], '.')) == Ok(Pad(body))
  {
    SplitJoin([header, body, signature], '.');
  }

  // ---------------------------------------------------------------- sessions

  /** `_create_session(parent_id, token)`: a session under the user's key whose
      `expire` is the moment it is made. */
  method CreateSession(ds: Store, owner: int, token: string, now: int) returns (t: string)
    requires ds.Valid()
    modifies ds
    ensures ds.Valid() && ds.nextId == old(ds.nextId) + 1
    ensures t == token
    ensures ds.entities == old(ds.entities) + [SessionEntity(SessionKind, UserKind, old(ds.nextId), owner, token, now)]
    ensures WellFormed(old(ds.entities)) ==> WellFormed(ds.entities)
  {
    PutSession(ds, SessionKind, UserKind, owner, token, now);
    t := token;
  }

  /** The rest of `main_page` once Google's token response is in: check the
      id_token's shape, find the user by subject and email or add one, then
      store a session under the access token.  `sub` and `email` stand for the
      claims decoded from the padded body. */
  method CompleteLogin(ds: Store, accessToken: string, idToken: string, sub: string, email: string, now: int)
    returns (r: Result<string, Failure>)
    requires ds.Valid() && WellFormed(ds.entities)
    modifies ds
    ensures ds.Valid() && WellFormed(ds.entities)
    ensures ds.nextId == old(ds.nextId)
      + (if r.Err? then 0 else if Falsy(VerifyUser(old(ds.entities), UserKind, sub, email)) then 2 else 1)
    ensures PaddedBody(idToken).Err? ==> r == Err(MalformedIdToken) && ds.entities == old(ds.entities)
    ensures PaddedBody(idToken).Ok? ==>
      var known := VerifyUser(old(ds.entities), UserKind, sub, email);
      if !Falsy(known) then
        && r == Ok(accessToken)
        && ds.entities == old(ds.entities) + [SessionEntity(SessionKind, UserKind, old(ds.nextId), known.value, accessToken, now)]
      else if SearchUser(old(ds.entities), UserKind, sub) then
        r == Err(NoUserId) && ds.entities == old(ds.entities)
      else
        && r == Ok(accessToken)
        && ds.entities == old(ds.entities)
             + [UserEntity(UserKind, old(ds.nextId), sub, email)]
             + [SessionEntity(SessionKind, UserKind, old(ds.nextId) + 1, old(ds.nextId), accessToken, now)]
  {
    var body := PaddedBody(idToken);
    if body.Err? {
      return Err(body.error);
    }
    var userId := VerifyUser(ds.entities, UserKind, sub, email);
    if Falsy(userId) {
      userId := AddUser(ds, UserKind, sub, email);
    }
    if userId.None? {
      return Err(NoUserId);
    }
    var token := CreateSession(ds, userId.value, accessToken, now);
    r := Ok(token);
  }

  /** A first sign-in adds the user, and the session it stores is the one a
      later lookup of the access token finds. */
  lemma FirstLoginFound(es: seq<Entity>, id: int, sub: string, email: string, token: string, now: int)
    requires WellFormed(es) && SessionOwner(es, SessionKind, token).None?
    ensures var after := es + [UserEntity(UserKind, id, sub, email)] + [SessionEntity(SessionKind, UserKind, id + 1, id, token, now)];
      WellFormed(after) && SessionOwner(after, SessionKind, token) == Some(id)
  {
    var u := UserEntity(UserKind, id, sub, email);
    WellFormedAppend(es, u);
    assert SessionOwner(es + [u], SessionKind, token).None?;
    SessionOwnerAfterPut(es + [u], SessionKind, UserKind, id + 1, id, token, now);
  }

  // ---------------------------------------------------------------- handlers

  /** `send_events`: the session check, then `events2json(get_all(parent_id))`
      over the Lab3 kinds. */
  method SendEvents(ds: Store, token: string, now: int) returns (r: Result<seq<Row>, Failure>)
    requires ds.Valid() && WellFormed(ds.entities)
    modifies ds
    ensures ds.Valid() && WellFormed(ds.entities)
    ensures ds.nextId == old(ds.nextId)
    ensures var owner := SessionOwner(old(ds.entities), SessionKind, token);
      if Falsy(owner) then r == Err(SessionExpired) && ds.entities == old(ds.entities)
      else
        var user := Key(ListedUserKind, owner.value, None);
        && ds.entities == Evicted(old(ds.entities), ListedEventKind, user, now)
        && r.Ok?
        && exists s :: && DateSorted(s) && multiset(s) == multiset(Visible(old(ds.entities), ListedEventKind, user, now))
                       && r.value == RowsOf(s, now)
  {
    var parent := SessionOwner(ds.entities, SessionKind, token);
    if Falsy(parent) {
      return Err(SessionExpired);
    }
    var events := GetAll(ds, ListedEventKind, ListedUserKind, parent.value, now);
    var a := new Listed[|events|](i requires 0 <= i < |events| => events[i]);
    assert a[..] == events;
    var rows := EventsToJson(a, now);
    r := Ok(rows);
  }

  /** `add_event`: the session check, the empty-field checks, the year scan for
      a month and day, a second session check, then the insertion under the
      Lab2 kinds. */
  method AddEvent(ds: Store, token: string, name: string, date: string, now: int) returns (r: Result<int, Failure>)
    requires ds.Valid() && WellFormed(ds.entities) && ValidNow(now)
    modifies ds
    ensures ds.Valid() && WellFormed(ds.entities)
    ensures ds.nextId == old(ds.nextId) + (if r.Ok? then 1 else 0)
    ensures var owner := SessionOwner(old(ds.entities), SessionKind, token);
      if Falsy(owner) then r == Err(SessionExpired) && ds.entities == old(ds.entities)
      else if name == "" then r == Err(EmptyName) && ds.entities == old(ds.entities)
      else if date == "" then r == Err(EmptyDate) && ds.entities == old(ds.entities)
      else if Lab3EventDate(date, now).Err? then r == Err(Lab3EventDate(date, now).error) && ds.entities == old(ds.entities)
      else && r == Ok(old(ds.nextId))
           && ds.entities == old(ds.entities)
                + [EventEntity(WrittenEventKind, WrittenUserKind, r.value, owner.value, name, Lab3EventDate(date, now).value)]
  {
    var parent := SessionOwner(ds.entities, SessionKind, token);
    if Falsy(parent) {
      return Err(SessionExpired);
    }
    if name == "" {
      return Err(EmptyName);
    }
    if date == "" {
      return Err(EmptyDate);
    }
    var fields := ConvertFields(Split(date, '/'));
    if fields.None? {
      return Err(BadDateFormat);
    }
    var resolved := ResolveLab3(fields.value, now);
    if resolved.Err? {
      return Err(resolved.error);
    }
    parent := SessionOwner(ds.entities, SessionKind, token);
    if Falsy(parent) {
      return Err(SessionExpired);
    }
    var id := AddEventEntity(ds, WrittenEventKind, WrittenUserKind, parent.value, name, resolved.value);
    r := Ok(id);
  }

  /** `del_event`: the session check, then the deletion of the Lab2-kind key
      built from the owner and `int(event_id)`. */
  method DelEvent(ds: Store, token: string, eventId: string) returns (r: Result<(), Failure>)
    requires ds.Valid() && WellFormed(ds.entities)
    modifies ds
    ensures ds.Valid() && WellFormed(ds.entities)
    ensures ds.nextId == old(ds.nextId)
    ensures var owner := SessionOwner(old(ds.entities), SessionKind, token);
      if Falsy(owner) then r == Err(SessionExpired) && ds.entities == old(ds.entities)
      else if ParseInt(eventId).None? then r == Err(BadEventId) && ds.entities == old(ds.entities)
      else if !IsKeyId(ParseInt(eventId).value) then r == Err(BadKeyId) && ds.entities == old(ds.entities)
      else && r == Ok(())
           && ds.entities == Filter(old(ds.entities), KeyIsNot(EventKey(WrittenEventKind, WrittenUserKind, ParseInt(eventId).value, owner.value)))
  {
    var parent := SessionOwner(ds.entities, SessionKind, token);
    if Falsy(parent) {
      return Err(SessionExpired);
    }
    var id := ParseInt(eventId);
    if id.None? {
      return Err(BadEventId);
    }
    if !IsKeyId(id.value) {
      return Err(BadKeyId);
    }
    DelEventEntity(ds, WrittenEventKind, WrittenUserKind, id.value, parent.value);
    r := Ok(());
  }

  /** `logout`: every session with the token goes. */
  method Logout(ds: Store, token: string)
    requires ds.Valid() && WellFormed(ds.entities)
    modifies ds
    ensures ds.Valid() && WellFormed(ds.entities)
    ensures ds.nextId == old(ds.nextId)
    ensures ds.entities == WithoutSessions(old(ds.entities), SessionKind, token)
  {
    DelSession(ds, SessionKind, token);
    WellFormedFilter(old(ds.entities), OtherTest(SessionKind, token));
  }

  /** An event this version adds never shows up in its own listing. */
  lemma AddedEventNeverListed(es: seq<Entity>, id: int, owner: int, name: string, date: Date, user: int, now: int)
    ensures var e := EventEntity(WrittenEventKind, WrittenUserKind, id, owner, name, date);
      Visible(es + [e], ListedEventKind, Key(ListedUserKind, user, None), now)
        == Visible(es, ListedEventKind, Key(ListedUserKind, user, None), now)
  {
    ForeignEventNotListed(es, EventEntity(WrittenEventKind, WrittenUserKind, id, owner, name, date),
                          ListedEventKind, Key(ListedUserKind, user, None), now);
  }

  /** Nor does its delete touch an event its listing shows. */
  lemma ListedEventNeverDeleted(es: seq<Entity>, id: int, owner: int, e: Entity, user: int)
    requires e in es && InQuery(e, ListedEventKind, Key(ListedUserKind, user, None))
    ensures e in Filter(es, KeyIsNot(EventKey(WrittenEventKind, WrittenUserKind, id, owner)))
  {
    FilterMember(es, KeyIsNot(EventKey(WrittenEventKind, WrittenUserKind, id, owner)), e);
  }
}
