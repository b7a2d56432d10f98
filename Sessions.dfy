/** `SessionManager` of `valutatrade_hub/core/usecases.py`: at most one
    login session, valid for 24 hours from its creation. The session file is
    the field `session`; an empty or unreadable file is `None`. */
module Sessions {
  import opened Errors

  datatype Session = Session(userId: int, username: string, createdAt: int, expiresAt: int)

  /** 24 hours, in microseconds. */
  const SessionLifetime: int := 24 * 60 * 60 * 1_000_000

  /** The session `get_current_session` reports at time `now`: a session
      lasts up to and including its expiry instant and is gone after it. */
  function Current(session: Option<Session>, now: int): (c: Option<Session>)
    ensures c.Some? <==> session.Some? && now <= session.value.expiresAt
    ensures c.Some? ==> c == session
  {
    if session.Some? && now > session.value.expiresAt then None else session
  }

  /** A session created at `createdAt` is current exactly for the following
      24 hours. */
  lemma SessionLastsADay(userId: int, username: string, createdAt: int, now: int)
    ensures Current(Some(Session(userId, username, createdAt, createdAt + SessionLifetime)), now).Some?
        <==> now <= createdAt + SessionLifetime
  {
  }

  /** Expiry is final: asking again later gives what asking only later
      would have given. */
  lemma CurrentLater(session: Option<Session>, now: int, later: int)
    requires now <= later
    ensures Current(Current(session, now), later) == Current(session, later)
  {
  }

  class SessionManager {
    var session: Option<Session>

    /** A session file that did not exist yet: no session. */
    constructor ()
      ensures session == None
    {
      session := None;
    }

    /** `create_session`: replaces any session with a new one expiring 24
        hours after `now`. */
    method CreateSession(userId: int, username: string, now: int)
      modifies this
      ensures session == Some(Session(userId, username, now, now + SessionLifetime))
    {
      session := Some(Session(userId, username, now, now + SessionLifetime));
    }

    /** `get_current_session`: an expired session is cleared as it is
        reported gone, so what is stored afterwards is what was reported. */
    method GetCurrentSession(now: int) returns (s: Option<Session>)
      modifies this
      ensures s == Current(old(session), now) && session == s
    {
      if session.Some? && now > session.value.expiresAt {
        ClearSession();
        return None;
      }
      return session;
    }

    /** `clear_session`. */
    method ClearSession()
      modifies this
      ensures session == None
    {
      session := None;
    }

    /** `is_session_active`. */
    method IsSessionActive(now: int) returns (active: bool)
      modifies this
      ensures active <==> old(session).Some? && now <= old(session).value.expiresAt
      ensures session == Current(old(session), now)
    {
      var s := GetCurrentSession(now);
      active := s.Some?;
    }
  }
}
