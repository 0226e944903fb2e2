/** Lab2: the password-login version of the calendar.  Sessions carry a random
    ten-letter token and expire nine hours after they are made; the lookup
    deletes an expired session but still answers its owner. */
module Lab2 {
  import opened Wrappers
  import opened Seqs
  import opened Text
  import opened Calendar
  import opened Datastore
  import opened Tables
  import opened Listing
  import opened Recurrence

  const UserKind := "Lab2-user"
  const EventKind := "Lab2-event"
  const SessionKind := "Lab2-session"

  /** The module-level `length` passed to `get_random_string`. */
  const TokenLength := 10
  /** `timedelta(hours=9)` in seconds. */
  const SessionLifetime := 9 * 3600

  // ---------------------------------------------------------------- tokens

  predicate IsAsciiLetter(c: char) { 'a' <= c <= 'z' || 'A' <= c <= 'Z' }

  /** `len(string.ascii_letters)`. */
  const LetterCount := 52

  /** `string.ascii_letters[k]`: the lower-case letters, then the upper-case ones. */
  function Letter(k: int): (c: char)
    requires 0 <= k < LetterCount
    ensures IsAsciiLetter(c)
  {
    if k < 26 then ('a' as int + k) as char else ('A' as int + (k - 26)) as char
  }

  /** The position of a letter in `string.ascii_letters`. */
  function LetterIndex(c: char): (k: int)
    requires IsAsciiLetter(c)
    ensures 0 <= k < LetterCount && Letter(k) == c
  {
    if 'a' <= c <= 'z' then c as int - 'a' as int else 26 + (c as int - 'A' as int)
  }

  /** Outcomes of `random.choice(letters)`: positions in the alphabet. */
  predicate ValidDraws(draws: seq<int>)
  {
    forall i :: 0 <= i < |draws| ==> 0 <= draws[i] < LetterCount
  }

  /** `get_random_string(length)`: one letter per draw of the random source. */
  function RandomString(length: nat, draws: seq<int>): (r: string)
    requires |draws| == length && ValidDraws(draws)
    ensures |r| == length
    ensures forall i :: 0 <= i < |r| ==> IsAsciiLetter(r[i]) && r[i] == Letter(draws[i])
  {
    if length == 0 then "" else RandomString(length - 1, draws[..length - 1]) + [Letter(draws[length - 1])]
  }

  /** Every string of ASCII letters is a possible token of its length. */
  lemma EveryTokenPossible(t: string)
    requires forall i :: 0 <= i < |t| ==> IsAsciiLetter(t[i])
    ensures exists draws :: |draws| == |t| && ValidDraws(draws) && RandomString(|t|, draws) == t
  {
    var draws := seq(|t|, i requires 0 <= i < |t| => LetterIndex(t[i]));
    assert ValidDraws(draws);
    var r := RandomString(|t|, draws);
    assert forall i :: 0 <= i < |t| ==> r[i] == t[i];
  }

  // ---------------------------------------------------------------- sessions

  /** `_create_session(parent_id)`: a fresh token and an expiry nine hours on. */
  method CreateSession(ds: Store, owner: int, now: int, draws: seq<int>) returns (token: string)
    requires ds.Valid() && |draws| == TokenLength && ValidDraws(draws)
    modifies ds
    ensures ds.Valid() && ds.nextId == old(ds.nextId) + 1
    ensures token == RandomString(TokenLength, draws)
    ensures ds.entities == old(ds.entities) + [SessionEntity(SessionKind, UserKind, old(ds.nextId), owner, token, now + SessionLifetime)]
    ensures WellFormed(old(ds.entities)) ==> WellFormed(ds.entities)
  {
    token := RandomString(TokenLength, draws);
    PutSession(ds, SessionKind, UserKind, owner, token, now + SessionLifetime);
  }

  /** The first fetched session with the token is past its expiry. */
  predicate FirstSessionExpired(es: seq<Entity>, token: string, now: int)
  {
    var m := Sessions(es, SessionKind, token);
    |m| > 0 && (assert m[0] in m; m[0].props.expire < now)
  }

  /** The store a session lookup leaves: all sessions with the token are gone
      when the first of them had expired. */
  function AfterLookup(es: seq<Entity>, token: string, now: int): seq<Entity>
  {
    if FirstSessionExpired(es, token, now) then WithoutSessions(es, SessionKind, token) else es
  }

  /** `_search_session(token)`: the owner of the first session with the token,
      deleting the token's sessions first when that one has expired. */
  method SearchSession(ds: Store, token: string, now: int) returns (owner: Option<int>)
    requires ds.Valid() && WellFormed(ds.entities)
    modifies ds
    ensures ds.Valid() && WellFormed(ds.entities) && ds.nextId == old(ds.nextId)
    ensures owner == SessionOwner(old(ds.entities), SessionKind, token)
    ensures ds.entities == AfterLookup(old(ds.entities), token, now)
  {
    var events := Sessions(ds.entities, SessionKind, token);
    if |events| == 0 {
      return None;
    }
    var event := events[0];
    assert event in events;
    if event.props.expire < now {
      DelSession(ds, SessionKind, token);
    }
    owner := Some(Owner(event));
  }

  /** What the lookup's doc-comment promises: the owner only while the session
      is active. */
  function ActiveOwner(es: seq<Entity>, token: string, now: int): (r: Option<int>)
    requires WellFormed(es)
    ensures r.None? <==> SessionOwner(es, SessionKind, token).None? || FirstSessionExpired(es, token, now)
    ensures r.Some? ==> exists i :: && IsFirst(es, SessionTest(SessionKind, token), i)
                                    && Owner(es[i]) == r.value && es[i].props.expire >= now
  {
    if FirstSessionExpired(es, token, now) then None
    else
      var m := Sessions(es, SessionKind, token);
      if |m| == 0 then None
      else
        FilterHeadExists(es, SessionTest(SessionKind, token));
        Some(Owner(m[0]))
  }

  /** A session that expired at time 0 still authenticates its owner at time 10,
      where the active-session lookup refuses it. */
  lemma ExpiredSessionAccepted()
    ensures var es := [SessionEntity(SessionKind, UserKind, 1, 7, "token", 0)];
      && FirstSessionExpired(es, "token", 10)
      && SessionOwner(es, SessionKind, "token") == Some(7)
      && ActiveOwner(es, "token", 10) == None
  {
    var s := SessionEntity(SessionKind, UserKind, 1, 7, "token", 0);
    assert Filter([s], SessionTest(SessionKind, "token")) == [s] + Filter([s][1..], SessionTest(SessionKind, "token"));
  }

  /** The lookup that follows an expired one finds nothing. */
  lemma ExpiredOnlyOnce(es: seq<Entity>, token: string, now: int)
    requires WellFormed(es) && FirstSessionExpired(es, token, now)
    ensures WellFormed(AfterLookup(es, token, now))
    ensures SessionOwner(AfterLookup(es, token, now), SessionKind, token) == None
  {
    NoOwnerAfterDelete(es, SessionKind, token);
  }

  /** A session made at `created` for a token not yet in use is found for its
      owner, and counts as expired exactly after nine hours. */
  lemma SessionLifetimeHolds(es: seq<Entity>, id: int, owner: int, token: string, created: int, t: int)
    requires WellFormed(es) && SessionOwner(es, SessionKind, token).None?
    ensures var after := es + [SessionEntity(SessionKind, UserKind, id, owner, token, created + SessionLifetime)];
      && WellFormed(after)
      && SessionOwner(after, SessionKind, token) == Some(owner)
      && (FirstSessionExpired(after, token, t) <==> t > created + SessionLifetime)
  {
    var s := SessionEntity(SessionKind, UserKind, id, owner, token, created + SessionLifetime);
    SessionOwnerAfterPut(es, SessionKind, UserKind, id, owner, token, created + SessionLifetime);
    FilterAppend(es, [s], SessionTest(SessionKind, token));
    assert Filter([s], SessionTest(SessionKind, token)) == [s] + Filter([s][1..], SessionTest(SessionKind, token));
    assert Sessions(es + [s], SessionKind, token) == [s];
  }

  // ---------------------------------------------------------------- handlers

  /** `root`: without a token the login page; otherwise the session lookup,
      then the index page when it answers an owner.  The lookup deletes the
      token's sessions when the first has expired, and the page is still
      served in that case. */
  method Root(ds: Store, token: string, now: int) returns (r: Result<(), Failure>)
    requires ds.Valid() && WellFormed(ds.entities)
    modifies ds
    ensures ds.Valid() && WellFormed(ds.entities) && ds.nextId == old(ds.nextId)
    ensures token == "" ==> r == Err(NotLoggedIn) && ds.entities == old(ds.entities)
    ensures token != "" ==>
      && ds.entities == AfterLookup(old(ds.entities), token, now)
      && (r.Ok? <==> !Falsy(SessionOwner(old(ds.entities), SessionKind, token)))
      && (r.Err? ==> r == Err(NotLoggedIn))
  {
    if token == "" {
      return Err(NotLoggedIn);
    }
    var owner := SearchSession(ds, token, now);
    if Falsy(owner) {
      return Err(NotLoggedIn);
    }
    r := Ok(());
  }

  /** `login_page` on POST: the empty-field checks, then the name and hashed
      password lookup, then a new session whose token is answered. */
  method Login(ds: Store, uname: string, passwd: string, hash: string -> string, now: int, draws: seq<int>)
    returns (r: Result<string, Failure>)
    requires ds.Valid() && WellFormed(ds.entities) && |draws| == TokenLength && ValidDraws(draws)
    modifies ds
    ensures ds.Valid() && WellFormed(ds.entities)
    ensures ds.nextId == old(ds.nextId) + (if r.Ok? then 1 else 0)
    ensures uname == "" ==> r == Err(EmptyUserName) && ds.entities == old(ds.entities)
    ensures uname != "" && passwd == "" ==> r == Err(EmptyPassword) && ds.entities == old(ds.entities)
    ensures uname != "" && passwd != "" ==>
      var id := VerifyUser(old(ds.entities), UserKind, uname, hash(passwd));
      if Falsy(id) then r == Err(BadCredentials) && ds.entities == old(ds.entities)
      else && r == Ok(RandomString(TokenLength, draws))
           && ds.entities == old(ds.entities) + [SessionEntity(SessionKind, UserKind, old(ds.nextId), id.value, r.value, now + SessionLifetime)]
  {
    if uname == "" {
      return Err(EmptyUserName);
    }
    if passwd == "" {
      return Err(EmptyPassword);
    }
    var userId := VerifyUser(ds.entities, UserKind, uname, hash(passwd));
    if Falsy(userId) {
      return Err(BadCredentials);
    }
    var token := CreateSession(ds, userId.value, now, draws);
    r := Ok(token);
  }

  /** `sign_up`: the empty-field checks, then a new user unless the name is
      taken, then a session for the new user. */
  method SignUp(ds: Store, uname: string, passwd: string, hash: string -> string, now: int, draws: seq<int>)
    returns (r: Result<string, Failure>)
    requires ds.Valid() && WellFormed(ds.entities) && |draws| == TokenLength && ValidDraws(draws)
    modifies ds
    ensures ds.Valid() && WellFormed(ds.entities)
    ensures ds.nextId == old(ds.nextId) + (if r.Ok? then 2 else 0)
    ensures uname == "" ==> r == Err(EmptyUserName) && ds.entities == old(ds.entities)
    ensures uname != "" && passwd == "" ==> r == Err(EmptyPassword) && ds.entities == old(ds.entities)
    ensures uname != "" && passwd != "" ==>
      if SearchUser(old(ds.entities), UserKind, uname) then r == Err(UserExists) && ds.entities == old(ds.entities)
      else && r == Ok(RandomString(TokenLength, draws))
           && ds.entities == old(ds.entities)
                + [UserEntity(UserKind, old(ds.nextId), uname, hash(passwd))]
                + [SessionEntity(SessionKind, UserKind, old(ds.nextId) + 1, old(ds.nextId), r.value, now + SessionLifetime)]
  {
    if uname == "" {
      return Err(EmptyUserName);
    }
    if passwd == "" {
      return Err(EmptyPassword);
    }
    var userId := AddUser(ds, UserKind, uname, hash(passwd));
    if Falsy(userId) {
      return Err(UserExists);
    }
    var token := CreateSession(ds, userId.value, now, draws);
    r := Ok(token);
  }

  /** After a sign-up, logging in with the same name and password finds the new
      user. */
  lemma SignedUpUserLogsIn(es: seq<Entity>, id: int, uname: string, passwd: string, hash: string -> string, s: Entity)
    requires !SearchUser(es, UserKind, uname) && id != 0 && s.props.SessionProps?
    ensures var after := es + [UserEntity(UserKind, id, uname, hash(passwd))] + [s];
      VerifyUser(after, UserKind, uname, hash(passwd)) == Some(id)
  {
    var u := UserEntity(UserKind, id, uname, hash(passwd));
    var p := AccountTest(UserKind, uname, hash(passwd));
    FoundAfterAdd(es, UserKind, id, uname, hash(passwd));
    FilterAppend(es + [u], [s], p);
    assert Filter([s], p) == [] + Filter([s][1..], p);
    assert Filter(es + [u], p) + [] == Filter(es + [u], p);
  }

  /** A second sign-up under the same name is refused. */
  lemma SecondSignUpRefused(es: seq<Entity>, id: int, uname: string, passwd: string, s: Entity)
    ensures SearchUser(es + [UserEntity(UserKind, id, uname, passwd)] + [s], UserKind, uname)
  {
    assert UserEntity(UserKind, id, uname, passwd) in es + [UserEntity(UserKind, id, uname, passwd)] + [s];
  }

  /** `send_events`: the session check, then `events2json(get_all(parent_id))`. */
  method SendEvents(ds: Store, token: string, now: int) returns (r: Result<seq<Row>, Failure>)
    requires ds.Valid() && WellFormed(ds.entities)
    modifies ds
    ensures ds.Valid() && WellFormed(ds.entities)
    ensures ds.nextId == old(ds.nextId)
    ensures var owner := SessionOwner(old(ds.entities), SessionKind, token);
      var mid := AfterLookup(old(ds.entities), token, now);
      if Falsy(owner) then r == Err(SessionExpired) && ds.entities == mid
      else
        var user := Key(UserKind, owner.value, None);
        && ds.entities == Evicted(mid, EventKind, user, now)
        && r.Ok?
        && exists s :: && DateSorted(s) && multiset(s) == multiset(Visible(mid, EventKind, user, now))
                       && r.value == RowsOf(s, now)
  {
    var parent := SearchSession(ds, token, now);
    if Falsy(parent) {
      return Err(SessionExpired);
    }
    var events := GetAll(ds, EventKind, UserKind, parent.value, now);
    var a := new Listed[|events|](i requires 0 <= i < |events| => events[i]);
    assert a[..] == events;
    var rows := EventsToJson(a, now);
    r := Ok(rows);
  }

  /** `add_event`: the session check, the empty-field checks, the date
      resolution, a second session check, then the insertion. */
  method AddEvent(ds: Store, token: string, name: string, date: string, now: int) returns (r: Result<int, Failure>)
    requires ds.Valid() && WellFormed(ds.entities)
    modifies ds
    ensures ds.Valid() && WellFormed(ds.entities)
    ensures ds.nextId == old(ds.nextId) + (if r.Ok? then 1 else 0)
    ensures var owner := SessionOwner(old(ds.entities), SessionKind, token);
      var mid := AfterLookup(old(ds.entities), token, now);
      if Falsy(owner) then r == Err(SessionExpired) && ds.entities == mid
      else if name == "" then r == Err(EmptyName) && ds.entities == mid
      else if date == "" then r == Err(EmptyDate) && ds.entities == mid
      else if Lab2EventDate(date, now).Err? then r == Err(Lab2EventDate(date, now).error) && ds.entities == mid
      else if FirstSessionExpired(old(ds.entities), token, now) then r == Err(SessionExpired) && ds.entities == mid
      else && r == Ok(old(ds.nextId))
           && ds.entities == old(ds.entities) + [EventEntity(EventKind, UserKind, r.value, owner.value, name, Lab2EventDate(date, now).value)]
    ensures FirstSessionExpired(old(ds.entities), token, now) ==> r.Err?
  {
    ghost var start := ds.entities;
    var parent := SearchSession(ds, token, now);
    if Falsy(parent) {
      return Err(SessionExpired);
    }
    if name == "" {
      return Err(EmptyName);
    }
    if date == "" {
      return Err(EmptyDate);
    }
    var fields := ConvertFields(Split(date, '/'));
    if fields.None? {
      return Err(BadDateFormat);
    }
    var resolved := Lab2Resolve(fields.value, now);
    if resolved.Err? {
      return Err(resolved.error);
    }
    parent := SearchSession(ds, token, now);
    if Falsy(parent) {
      if FirstSessionExpired(start, token, now) {
        ExpiredOnlyOnce(start, token, now);
      }
      return Err(SessionExpired);
    }
    if FirstSessionExpired(start, token, now) {
      ExpiredOnlyOnce(start, token, now);
    }
    var id := AddEventEntity(ds, EventKind, UserKind, parent.value, name, resolved.value);
    r := Ok(id);
  }

  /** `del_event`: the session check, then the deletion of the key built from
      the owner and `int(event_id)`. */
  method DelEvent(ds: Store, token: string, eventId: string, now: int) returns (r: Result<(), Failure>)
    requires ds.Valid() && WellFormed(ds.entities)
    modifies ds
    ensures ds.Valid() && WellFormed(ds.entities)
    ensures ds.nextId == old(ds.nextId)
    ensures var owner := SessionOwner(old(ds.entities), SessionKind, token);
      var mid := AfterLookup(old(ds.entities), token, now);
      if Falsy(owner) then r == Err(SessionExpired) && ds.entities == mid
      else if ParseInt(eventId).None? then r == Err(BadEventId) && ds.entities == mid
      else if !IsKeyId(ParseInt(eventId).value) then r == Err(BadKeyId) && ds.entities == mid
      else && r == Ok(())
           && ds.entities == Filter(mid, KeyIsNot(EventKey(EventKind, UserKind, ParseInt(eventId).value, owner.value)))
  {
    var parent := SearchSession(ds, token, now);
    if Falsy(parent) {
      return Err(SessionExpired);
    }
    var id := ParseInt(eventId);
    if id.None? {
      return Err(BadEventId);
    }
    if !IsKeyId(id.value) {
      return Err(BadKeyId);
    }
    DelEventEntity(ds, EventKind, UserKind, id.value, parent.value);
    r := Ok(());
  }

  /** `logout`: every session with the token goes. */
  method Logout(ds: Store, token: string)
    requires ds.Valid() && WellFormed(ds.entities)
    modifies ds
    ensures ds.Valid() && WellFormed(ds.entities)
    ensures ds.nextId == old(ds.nextId)
    ensures ds.entities == WithoutSessions(old(ds.entities), SessionKind, token)
  {
    DelSession(ds, SessionKind, token);
    WellFormedFilter(old(ds.entities), OtherTest(SessionKind, token));
  }
}
