// The server's store of suspended sessions (src/session_store.rs) and the server side of a
// reconnection (src/reconnection.rs), one lock-protected step at a time.
module Sessions {
  import opened Common
  import opened ConnectionStates

  /** A 16-byte session identifier and a 32-byte token: only ever compared. */
  type SessionId = seq<Byte>
  type Token = seq<Byte>

  datatype SuspendedSession = SuspendedSession(
    reconnectToken: Token, connection: Connection, grantedPermissions: U32, lastGeneration: nat, userId: string)

  datatype ReconnectError = NoSuchSession | TokenMismatch

  type Store = map<SessionId, SuspendedSession>

  /** A timer armed for the grace period of one suspend episode. */
  datatype Timer = Timer(sessionId: SessionId, token: Token)

  predicate Opens(sessions: Store, sessionId: SessionId, token: Token) {
    sessionId in sessions && sessions[sessionId].reconnectToken == token
  }

  function WithoutIfMatches(sessions: Store, sessionId: SessionId, token: Token): Store {
    if Opens(sessions, sessionId, token) then sessions - {sessionId} else sessions
  }

  class SessionStore {
    var sessions: Store
    /** The timers that have not fired yet. */
    var timers: set<Timer>

    constructor ()
      ensures sessions == map[] && timers == {}
    {
      sessions := map[];
      timers := {};
    }

    method Suspend(sessionId: SessionId, session: SuspendedSession)
      modifies this`sessions
      ensures sessions == old(sessions)[sessionId := session]
    {
      sessions := sessions[sessionId := session];
    }

    /** Consumes the entry if the token is its own; any failed attempt leaves the store as it was. */
    method TryReconnect(sessionId: SessionId, token: Token) returns (r: Result<SuspendedSession, ReconnectError>)
      modifies this`sessions
      ensures r.Ok? <==> Opens(old(sessions), sessionId, token)
      ensures r.Ok? ==> r.value == old(sessions)[sessionId] && sessions == old(sessions) - {sessionId}
      ensures r.Err? ==> sessions == old(sessions)
      ensures r.Err? ==> r.error == if sessionId in sessions then TokenMismatch else NoSuchSession
    {
      if sessionId in sessions {
        var entry := sessions[sessionId];
        if entry.reconnectToken == token {
          sessions := sessions - {sessionId};
          return Ok(entry);
        }
        return Err(TokenMismatch);
      }
      return Err(NoSuchSession);
    }

    method Expire(sessionId: SessionId)
      modifies this`sessions
      ensures sessions == old(sessions) - {sessionId}
    {
      sessions := sessions - {sessionId};
    }

    method ExpireIfTokenMatches(sessionId: SessionId, token: Token)
      modifies this`sessions
      ensures sessions == WithoutIfMatches(old(sessions), sessionId, token)
    {
      if sessionId in sessions && sessions[sessionId].reconnectToken == token {
        sessions := sessions - {sessionId};
      }
    }

    /** Stores the session in state Suspended and arms a timer for this episode, or, unless the connection is
        Active, changes nothing. */
    method SuspendAndScheduleExpiry(sessionId: SessionId, userId: string, connection: Connection, token: Token,
                                    grantedPermissions: U32, lastGeneration: nat)
      returns (r: Result<(), Reason>)
      modifies this
      ensures r.Ok? <==> connection.state.Active?
      ensures r.Ok? ==>
                && sessions == old(sessions)[sessionId := SuspendedSession(
                     token, connection.(state := Suspended), grantedPermissions, lastGeneration, userId)]
                && timers == old(timers) + {Timer(sessionId, token)}
      ensures r.Err? ==> r.error == UnexpectedMessage && sessions == old(sessions) && timers == old(timers)
    {
      var sm := new ConnectionSm.Copy(connection);
      r := sm.Suspend();
      if r.Err? {
        return;
      }
      Suspend(sessionId, SuspendedSession(
        token, Connection(sm.state, sm.authAttempts), grantedPermissions, lastGeneration, userId));
      timers := timers + {Timer(sessionId, token)};
    }

    /** The grace period of one episode runs out. */
    method TimerFires(timer: Timer)
      requires timer in timers
      modifies this
      ensures sessions == WithoutIfMatches(old(sessions), timer.sessionId, timer.token)
      ensures timers == old(timers) - {timer}
    {
      ExpireIfTokenMatches(timer.sessionId, timer.token);
      timers := timers - {timer};
    }
  }

  // ---------------------------------------------------------------------
  // Completing a reconnection
  // ---------------------------------------------------------------------

  datatype Resumed = Resumed(
    connection: Connection, reconnectToken: Token, grantedPermissions: U32, resumedGeneration: nat, userId: string)

  datatype ServerError = FromStore(e: ReconnectError) | WriteFailed | Violation(reason: Reason)

  /** What the server answers. `newToken` is the random draw; `written` says whether the reply could be sent. */
  function Reconnection(sessions: Store, sessionId: SessionId, token: Token, newToken: Token, written: bool)
    : Result<Resumed, ServerError>
  {
    if sessionId !in sessions then Err(FromStore(NoSuchSession))
    else
      var s := sessions[sessionId];
      if s.reconnectToken != token then Err(FromStore(TokenMismatch))
      else if !s.connection.state.Suspended? then Err(Violation(UnexpectedMessage))
      else if !written then Err(WriteFailed)
      else Ok(Resumed(s.connection.(state := Active), newToken, s.grantedPermissions, s.lastGeneration + 1, s.userId))
  }

  /** The old token is spent as soon as it matches, even if the reply then fails. */
  method ServerCompleteReconnect(
    store: SessionStore, sessionId: SessionId, token: Token, newToken: Token, written: bool)
    returns (r: Result<Resumed, ServerError>)
    modifies store`sessions
    ensures r == Reconnection(old(store.sessions), sessionId, token, newToken, written)
    ensures store.sessions == WithoutIfMatches(old(store.sessions), sessionId, token)
  {
    var taken := store.TryReconnect(sessionId, token);
    if taken.Err? {
      return Err(FromStore(taken.error));
    }
    var suspended := taken.value;
    var sm := new ConnectionSm.Copy(suspended.connection);
    var resumed := sm.Resume();
    if resumed.Err? {
      return Err(Violation(resumed.error));
    }
    if !written {
      return Err(WriteFailed);
    }
    return Ok(Resumed(Connection(sm.state, sm.authAttempts), newToken, suspended.grantedPermissions,
                      suspended.lastGeneration + 1, suspended.userId));
  }
}
