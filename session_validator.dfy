/**
 * Single-device sessions (src/middleware/session-validator.js): an access
 * token carries the login time it was issued for, and it stays valid only
 * while the user's stored last login is not more than one second later.
 * User ids are strings in the database and never empty, so a falsy id is
 * an absent one; a falsy timestamp is an absent one or 0.
 */
module SessionValidator {
  import opened Common

  type Time = int

  /** The claims of a verified access token that the middleware reads. */
  datatype Payload = Payload(sub: Option<nat>, role: Option<string>, lastLoginAt: Option<Time>)

  /** The tolerance for the clock race between the login write and the token. */
  const Tolerance: int := 1000

  /** `!jwtLoginTimestamp`: absent or zero. */
  predicate Falsy(ts: Option<Time>)
  {
    ts.None? || ts.value == 0
  }

  /**
   * isSessionValid: lastLogins maps each user id to the user's stored
   * lastLogin; failing stands for a lookup that throws.
   */
  function IsSessionValid(userId: Option<nat>, jwtTs: Option<Time>, lastLogins: map<nat, Option<Time>>, failing: bool): (r: bool)
    ensures userId.None? || Falsy(jwtTs) ==> !r
    ensures userId.Some? && !Falsy(jwtTs) && userId.value !in lastLogins ==> !r
    ensures failing && userId.Some? && !Falsy(jwtTs) ==> !r
    ensures !failing && userId.Some? && !Falsy(jwtTs) && userId.value in lastLogins && lastLogins[userId.value].None? ==> r
    ensures !failing && userId.Some? && !Falsy(jwtTs) && userId.value in lastLogins && lastLogins[userId.value].Some? ==>
      (r <==> lastLogins[userId.value].value <= jwtTs.value + Tolerance)
  {
    if userId.None? || Falsy(jwtTs) then false
    else if failing then false
    else if userId.value !in lastLogins then false
    else match lastLogins[userId.value]
      case None => true
      case Some(db) => !(db > jwtTs.value + Tolerance)
  }

  datatype SessionError = InvalidToken | SessionInvalidated

  /** Every session error is a 401. */
  function Status(e: SessionError): (s: int)
    ensures s == 401
  {
    401
  }

  /** The code the SESSION_INVALIDATED reply carries; Invalid token has none. */
  function Code(e: SessionError): (c: Option<string>)
    ensures c.Some? <==> e.SessionInvalidated?
  {
    if e.SessionInvalidated? then Some("SESSION_INVALIDATED") else None
  }

  /** validateSession: None when the session is valid. */
  function ValidateSession(payload: Payload, lastLogins: map<nat, Option<Time>>, failing: bool): (r: Option<SessionError>)
    ensures r == Some(InvalidToken) <==> payload.sub.None? || Falsy(payload.lastLoginAt)
    ensures r == Some(SessionInvalidated) <==>
      payload.sub.Some? && !Falsy(payload.lastLoginAt) && !IsSessionValid(payload.sub, payload.lastLoginAt, lastLogins, failing)
    ensures r.None? <==> IsSessionValid(payload.sub, payload.lastLoginAt, lastLogins, failing)
  {
    if payload.sub.None? || Falsy(payload.lastLoginAt) then Some(InvalidToken)
    else if !IsSessionValid(payload.sub, payload.lastLoginAt, lastLogins, failing) then Some(SessionInvalidated)
    else None
  }

  /**
   * A token issued for the stored login time is valid, and so is one
   * issued for any time within the tolerance before it.
   */
  lemma TokenOfCurrentLoginValid(userId: nat, loginAt: Time, jwtTs: Time, lastLogins: map<nat, Option<Time>>)
    requires userId in lastLogins && lastLogins[userId] == Some(loginAt)
    requires jwtTs != 0 && loginAt - Tolerance <= jwtTs
    ensures IsSessionValid(Some(userId), Some(jwtTs), lastLogins, false)
  {
  }

  /** A token from a login more than the tolerance before the stored one is rejected. */
  lemma TokenOfEarlierLoginInvalid(userId: nat, loginAt: Time, jwtTs: Time, lastLogins: map<nat, Option<Time>>, failing: bool)
    requires userId in lastLogins && lastLogins[userId] == Some(loginAt)
    requires jwtTs < loginAt - Tolerance
    ensures !IsSessionValid(Some(userId), Some(jwtTs), lastLogins, failing)
  {
  }

  /** A later timestamp never makes a valid session invalid. */
  lemma ValidityMonotone(userId: Option<nat>, ts: Time, later: Time, lastLogins: map<nat, Option<Time>>, failing: bool)
    requires IsSessionValid(userId, Some(ts), lastLogins, failing)
    requires ts <= later && later != 0
    ensures IsSessionValid(userId, Some(later), lastLogins, failing)
  {
  }
}
