// `Sessions` of reproca/sessions.py: the same registry as in
// server_sessions.dfy, except that a caught KeyError issues a warning. The
// warning is the `warned` result of each method.

module ReprocaSessions {
  import opened Wrappers
  import opened SessionRegistry

  class Sessions<T(==), U> {
    /** session id -> Session */
    var sessions: map<string, Session<T, U>>
    /** user id -> session id */
    var users: map<T, string>

    /** Both dictionaries, as a registry value. */
    function State(): Registry<T, U>
      reads this
    {
      Registry(sessions, users)
    }

    /** The inverse-map invariant of the two dictionaries. */
    ghost predicate Valid()
      reads this
    {
      Inverse(State())
    }

    constructor()
      ensures State() == Empty()
      ensures Valid()
    {
      sessions := map[];
      users := map[];
    }

    /** `create(userid, user)`, with the token `secrets.token_urlsafe()` would
        return as `sid` and the clock reading `datetime.now()` as `now`. The
        call to `remove_by_userid` warns whenever the user had no session. */
    method Create(userid: T, user: U, sid: string, now: int) returns (sessionid: string, warned: bool)
      modifies this
      ensures sessionid == sid
      ensures State() == SessionRegistry.Create(old(State()), userid, user, sid, now)
      ensures warned <==> UserIdMissing(old(State()), userid)
      ensures old(Valid()) && Fresh(old(State()), sid) ==> Valid()
    {
      ghost var r := State();
      warned := RemoveByUserId(userid);
      sessionid := sid;
      users := users[userid := sessionid];
      sessions := sessions[sessionid := Session(userid, user, now)];
      if Inverse(r) && Fresh(r, sid) {
        CreateInverse(r, userid, user, sid, now);
      }
    }

    /** `remove_by_userid(userid)`: warns when either pop misses. */
    method RemoveByUserId(userid: T) returns (warned: bool)
      modifies this
      ensures State() == SessionRegistry.RemoveByUserId(old(State()), userid)
      ensures warned <==> UserIdMissing(old(State()), userid)
      ensures old(Valid()) ==> Valid()
    {
      ghost var r := State();
      warned := true;
      if userid in users {
        var sessionid := users[userid];
        users := users - {userid};
        if sessionid in sessions {
          sessions := sessions - {sessionid};
          warned := false;
        }
      }
      if Inverse(r) {
        RemoveByUserIdInverse(r, userid);
      }
    }

    /** `remove_by_sessionid(sessionid)`: warns when either pop misses. */
    method RemoveBySessionId(sessionid: string) returns (warned: bool)
      modifies this
      ensures State() == SessionRegistry.RemoveBySessionId(old(State()), sessionid)
      ensures warned <==> SessionIdMissing(old(State()), sessionid)
      ensures old(Valid()) ==> Valid()
    {
      ghost var r := State();
      warned := true;
      if sessionid in sessions {
        var session := sessions[sessionid];
        sessions := sessions - {sessionid};
        if session.userid in users {
          users := users - {session.userid};
          warned := false;
        }
      }
      if Inverse(r) {
        RemoveBySessionIdInverse(r, sessionid);
      }
    }

    /** `get_by_userid(userid)`; None is the caller's `default`. */
    method GetByUserId(userid: T) returns (found: Option<U>)
      ensures found == SessionRegistry.GetByUserId(State(), userid)
    {
      found := None;
      if userid in users && users[userid] != "" {
        var sessionid := users[userid];
        if sessionid in sessions {
          found := Some(sessions[sessionid].user);
        }
      }
    }

    /** `get_by_sessionid(sessionid)`; None is the caller's `default`. */
    method GetBySessionId(sessionid: string) returns (found: Option<U>)
      ensures found == SessionRegistry.GetBySessionId(State(), sessionid)
    {
      found := None;
      if sessionid in sessions {
        found := Some(sessions[sessionid].user);
      }
    }
  }
}
