// The session registry shared by both copies of the `Sessions` class, as
// functions on the pair of dictionaries it keeps: `sessions` (session id ->
// Session) and `users` (user id -> session id). The classes in
// server_sessions.dfy and reproca_sessions.dfy update their fields exactly
// as these functions say; the properties of the registry are proved here.
//
// Clock readings (`datetime.now()`) are integers counting microseconds, and
// the random session id (`secrets.token_urlsafe()`) is a parameter.

module SessionRegistry {
  import opened Wrappers

  /** `SESSION_VALID_FOR_DAYS`. */
  const SESSION_VALID_FOR_DAYS: int := 15

  /** The length of a `timedelta` day, in microseconds. */
  const MICROSECONDS_PER_DAY: int := 86_400_000_000

  /** A session: who it belongs to, the user object, and when it was created. */
  datatype Session<T, U> = Session(userid: T, user: U, created: int)

  /** `(now - created).days`: a `timedelta` keeps whole days rounded towards
      minus infinity, with the remainder in its seconds and microseconds. */
  function ElapsedDays(created: int, now: int): (days: int)
    ensures days * MICROSECONDS_PER_DAY <= now - created < (days + 1) * MICROSECONDS_PER_DAY
  {
    (now - created) / MICROSECONDS_PER_DAY
  }

  /** `is_expired`: more whole days than SESSION_VALID_FOR_DAYS have passed
      since the session was created; that is, at least sixteen full days. */
  function IsExpired<T, U>(s: Session<T, U>, now: int): (expired: bool)
    ensures expired <==> now - s.created >= (SESSION_VALID_FOR_DAYS + 1) * MICROSECONDS_PER_DAY
  {
    ElapsedDays(s.created, now) > SESSION_VALID_FOR_DAYS
  }

  /** The two dictionaries of a `Sessions` object. */
  datatype Registry<T(==), U> = Registry(sessions: map<string, Session<T, U>>, users: map<T, string>)

  /** `Sessions()`: both dictionaries empty. */
  function Empty<T(==), U>(): Registry<T, U>
  {
    Registry(map[], map[])
  }

  /** The two dictionaries are inverse: `users[u] == s` exactly when `s` is a
      session whose `userid` is `u`. */
  ghost predicate Inverse<T, U>(r: Registry<T, U>)
  {
    (forall u :: u in r.users ==> r.users[u] in r.sessions && r.sessions[r.users[u]].userid == u)
    && (forall s :: s in r.sessions ==> r.sessions[s].userid in r.users && r.users[r.sessions[s].userid] == s)
  }

  /** A session id `create` may hand out: `token_urlsafe` never returns the
      empty string, and a fresh token names no session yet. */
  predicate Fresh<T(==), U>(r: Registry<T, U>, sid: string)
  {
    sid != "" && sid !in r.sessions
  }

  /** `remove_by_userid`: pop the user's session id, then pop that session.
      A missing key raises KeyError, which is caught; a user entry already
      popped stays popped. */
  function RemoveByUserId<T(==), U>(r: Registry<T, U>, userid: T): Registry<T, U>
  {
    if userid !in r.users then r
    else
      var sid := r.users[userid];
      var users := r.users - {userid};
      if sid in r.sessions then Registry(r.sessions - {sid}, users)
      else Registry(r.sessions, users)
  }

  /** `remove_by_sessionid`: pop the session, then pop its owner's entry.
      Missing keys are caught as in RemoveByUserId. */
  function RemoveBySessionId<T(==), U>(r: Registry<T, U>, sid: string): Registry<T, U>
  {
    if sid !in r.sessions then r
    else
      var owner := r.sessions[sid].userid;
      var sessions := r.sessions - {sid};
      if owner in r.users then Registry(sessions, r.users - {owner})
      else Registry(sessions, r.users)
  }

  /** `create`: remove the user's session, then record the new id in both
      dictionaries. */
  function Create<T(==), U>(r: Registry<T, U>, userid: T, user: U, sid: string, now: int): Registry<T, U>
  {
    var q := RemoveByUserId(r, userid);
    Registry(q.sessions[sid := Session(userid, user, now)], q.users[userid := sid])
  }

  /** `get_by_userid`: the user of the session the user id names; None stands
      for `default`. The session id is tested for truth, so an empty id is a
      miss. */
  function GetByUserId<T(==), U>(r: Registry<T, U>, userid: T): Option<U>
  {
    if userid in r.users && r.users[userid] != "" && r.users[userid] in r.sessions
    then Some(r.sessions[r.users[userid]].user)
    else None
  }

  /** `get_by_sessionid`: the session's user; None stands for `default`. */
  function GetBySessionId<T(==), U>(r: Registry<T, U>, sid: string): Option<U>
  {
    if sid in r.sessions then Some(r.sessions[sid].user) else None
  }

  /** When `remove_by_userid` meets a KeyError (and the second copy warns). */
  predicate UserIdMissing<T(==), U>(r: Registry<T, U>, userid: T)
  {
    !(userid in r.users && r.users[userid] in r.sessions)
  }

  /** When `remove_by_sessionid` meets a KeyError (and the second copy warns). */
  predicate SessionIdMissing<T(==), U>(r: Registry<T, U>, sid: string)
  {
    !(sid in r.sessions && r.sessions[sid].userid in r.users)
  }

  // ---------------------------------------------------------------------
  // The inverse-map invariant
  // ---------------------------------------------------------------------

  lemma EmptyInverse<T, U>()
    ensures Inverse(Empty<T, U>())
  {
  }

  /** Under the invariant a user has at most one session. */
  lemma OneSessionPerUser<T, U>(r: Registry<T, U>, s1: string, s2: string)
    requires Inverse(r) && s1 in r.sessions && s2 in r.sessions
    requires r.sessions[s1].userid == r.sessions[s2].userid
    ensures s1 == s2
  {
  }

  lemma RemoveByUserIdInverse<T, U>(r: Registry<T, U>, userid: T)
    requires Inverse(r)
    ensures Inverse(RemoveByUserId(r, userid))
  {
  }

  lemma RemoveBySessionIdInverse<T, U>(r: Registry<T, U>, sid: string)
    requires Inverse(r)
    ensures Inverse(RemoveBySessionId(r, sid))
  {
  }

  /** `create` keeps the invariant when the new id is fresh. */
  lemma CreateInverse<T, U>(r: Registry<T, U>, userid: T, user: U, sid: string, now: int)
    requires Inverse(r) && Fresh(r, sid)
    ensures Inverse(Create(r, userid, user, sid, now))
  {
    var q := RemoveByUserId(r, userid);
    RemoveByUserIdInverse(r, userid);
    assert userid !in q.users && sid !in q.sessions;
    var c := Create(r, userid, user, sid, now);
    forall u | u in c.users
      ensures c.users[u] in c.sessions && c.sessions[c.users[u]].userid == u
    {
      if u != userid {
        assert c.users[u] == q.users[u] != sid;
      }
    }
    forall s | s in c.sessions
      ensures c.sessions[s].userid in c.users && c.users[c.sessions[s].userid] == s
    {
      if s != sid {
        var owner := q.sessions[s].userid;
        assert owner in q.users && owner != userid;
      }
    }
  }

  // ---------------------------------------------------------------------
  // create
  // ---------------------------------------------------------------------

  /** After `s := create(u, x)` both getters find x. */
  lemma CreateThenGet<T, U>(r: Registry<T, U>, userid: T, user: U, sid: string, now: int)
    requires sid != ""
    ensures GetBySessionId(Create(r, userid, user, sid, now), sid) == Some(user)
    ensures GetByUserId(Create(r, userid, user, sid, now), userid) == Some(user)
  {
  }

  /** The truth test in `get_by_userid`: were `create` handed the empty id,
      the user id lookup would miss although the session exists. */
  lemma CreateWithEmptyId<T, U>(r: Registry<T, U>, userid: T, user: U, now: int)
    ensures GetBySessionId(Create(r, userid, user, "", now), "") == Some(user)
    ensures GetByUserId(Create(r, userid, user, "", now), userid) == None
  {
  }

  /** `create` drops the user's previous session: its id names nothing
      afterwards. */
  lemma CreateReplaces<T, U>(r: Registry<T, U>, userid: T, user: U, sid: string, now: int)
    requires Inverse(r) && Fresh(r, sid) && userid in r.users
    ensures r.users[userid] !in Create(r, userid, user, sid, now).sessions
    ensures GetBySessionId(Create(r, userid, user, sid, now), r.users[userid]) == None
  {
  }

  /** `create` changes nothing that belongs to other users. */
  lemma CreateFrame<T, U>(r: Registry<T, U>, userid: T, user: U, sid: string, now: int)
    requires Inverse(r) && Fresh(r, sid)
    ensures forall u :: u != userid ==>
      GetByUserId(Create(r, userid, user, sid, now), u) == GetByUserId(r, u)
    ensures forall s :: s != sid && (userid !in r.users || s != r.users[userid]) ==>
      GetBySessionId(Create(r, userid, user, sid, now), s) == GetBySessionId(r, s)
  {
    var q := RemoveByUserId(r, userid);
    forall u | u != userid
      ensures GetByUserId(Create(r, userid, user, sid, now), u) == GetByUserId(r, u)
    {
      if u in r.users {
        assert r.users[u] in r.sessions && r.users[u] != sid;
        assert userid in r.users ==> r.users[userid] != r.users[u];
      }
    }
  }

  // ---------------------------------------------------------------------
  // remove_by_userid and remove_by_sessionid
  // ---------------------------------------------------------------------

  /** `remove_by_userid(u)`: u's lookups miss afterwards, and so does its old
      session id; other users and sessions are untouched. */
  lemma RemoveByUserIdEffect<T, U>(r: Registry<T, U>, userid: T)
    requires Inverse(r)
    ensures GetByUserId(RemoveByUserId(r, userid), userid) == None
    ensures userid in r.users ==> GetBySessionId(RemoveByUserId(r, userid), r.users[userid]) == None
    ensures forall u :: u != userid ==> GetByUserId(RemoveByUserId(r, userid), u) == GetByUserId(r, u)
    ensures forall s :: (userid !in r.users || s != r.users[userid]) ==>
      GetBySessionId(RemoveByUserId(r, userid), s) == GetBySessionId(r, s)
  {
    forall u | u != userid
      ensures GetByUserId(RemoveByUserId(r, userid), u) == GetByUserId(r, u)
    {
      if u in r.users && userid in r.users {
        assert r.users[u] != r.users[userid];
      }
    }
  }

  /** `remove_by_sessionid(s)`: s and its owner's lookups miss afterwards;
      other users and sessions are untouched. */
  lemma RemoveBySessionIdEffect<T, U>(r: Registry<T, U>, sid: string)
    requires Inverse(r)
    ensures GetBySessionId(RemoveBySessionId(r, sid), sid) == None
    ensures sid in r.sessions ==> GetByUserId(RemoveBySessionId(r, sid), r.sessions[sid].userid) == None
    ensures forall s :: s != sid ==> GetBySessionId(RemoveBySessionId(r, sid), s) == GetBySessionId(r, s)
    ensures forall u :: (sid !in r.sessions || u != r.sessions[sid].userid) ==>
      GetByUserId(RemoveBySessionId(r, sid), u) == GetByUserId(r, u)
  {
    forall u | sid !in r.sessions || u != r.sessions[sid].userid
      ensures GetByUserId(RemoveBySessionId(r, sid), u) == GetByUserId(r, u)
    {
      if u in r.users && sid in r.sessions {
        assert r.users[u] != sid;
      }
    }
  }

  /** Under the invariant the two removes agree: removing a user's session
      by its id is removing it by the user id. */
  lemma RemovesAgree<T, U>(r: Registry<T, U>, userid: T)
    requires Inverse(r) && userid in r.users
    ensures RemoveBySessionId(r, r.users[userid]) == RemoveByUserId(r, userid)
  {
  }

  /** Under the invariant `remove_by_userid` meets a KeyError exactly when the
      user has no session, and then it changes nothing. */
  lemma RemoveByUserIdMiss<T, U>(r: Registry<T, U>, userid: T)
    requires Inverse(r)
    ensures UserIdMissing(r, userid) <==> userid !in r.users
    ensures UserIdMissing(r, userid) <==> RemoveByUserId(r, userid) == r
  {
    if userid in r.users {
      assert userid !in RemoveByUserId(r, userid).users;
    }
  }

  /** The same for `remove_by_sessionid`. */
  lemma RemoveBySessionIdMiss<T, U>(r: Registry<T, U>, sid: string)
    requires Inverse(r)
    ensures SessionIdMissing(r, sid) <==> sid !in r.sessions
    ensures SessionIdMissing(r, sid) <==> RemoveBySessionId(r, sid) == r
  {
    if sid in r.sessions {
      assert sid !in RemoveBySessionId(r, sid).sessions;
    }
  }

  // ---------------------------------------------------------------------
  // The getters
  // ---------------------------------------------------------------------

  /** Under the invariant the two getters agree on every session with a
      non-empty id. */
  lemma GettersAgree<T, U>(r: Registry<T, U>, sid: string)
    requires Inverse(r) && sid in r.sessions && sid != ""
    ensures GetByUserId(r, r.sessions[sid].userid) == GetBySessionId(r, sid)
  {
  }

  /** The getters find a user only where a session holds it. */
  lemma GetByUserIdFound<T, U>(r: Registry<T, U>, userid: T)
    requires Inverse(r)
    ensures GetByUserId(r, userid).Some? <==> userid in r.users && r.users[userid] != ""
    ensures GetByUserId(r, userid).Some? ==>
      GetByUserId(r, userid).value == r.sessions[r.users[userid]].user
  {
  }
}
