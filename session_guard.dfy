/**
 * The session guard of the test routes (src/middleware/session-guard.js):
 * finding the student's running session, checking the x-session-token
 * header against it, and touching the session's lastActivity when a
 * request is let through. The JWT is verified outside the model: the guard
 * receives the raw cookie and the subject the verifier extracted from it.
 */
module SessionGuard {
  import opened Common
  import opened Db

  /**
   * getActiveSession: the running session of the student (expiring strictly
   * after now, on an existing incomplete attempt) with the latest
   * lastActivity, or none.
   */
  method GetActiveSession(db: Database, studentId: nat, now: Time) returns (r: Option<nat>)
    ensures r.None? <==> LiveSessionsOf(db.attempts, db.sessions, studentId, now) == {}
    ensures r.Some? ==> r.value in LiveSessionsOf(db.attempts, db.sessions, studentId, now)
    ensures r.Some? ==> forall j :: j in LiveSessionsOf(db.attempts, db.sessions, studentId, now) ==>
      db.sessions[j].lastActivity <= db.sessions[r.value].lastActivity
  {
    var live := LiveSessionsOf(db.attempts, db.sessions, studentId, now);
    if live == {} {
      return None;
    }
    var k := LatestSession(db.sessions, live);
    return Some(k);
  }

  /** A session row that proves the token: same attempt, student and token, not yet expired. */
  predicate TokenMatches(s: Session, attemptId: nat, sessionToken: string, studentId: nat, now: Time)
  {
    s.attemptId == attemptId && s.studentId == studentId && s.sessionToken == sessionToken && s.expiresAt > now
  }

  /**
   * validateSessionToken: some session of the student bound to the attempt
   * carries the token and has not expired.
   */
  method ValidateSessionToken(db: Database, attemptId: nat, sessionToken: string, studentId: nat, now: Time)
    returns (ok: bool)
    ensures ok <==> (exists k :: k in db.sessions && TokenMatches(db.sessions[k], attemptId, sessionToken, studentId, now))
  {
    ok := exists k :: k in db.sessions && TokenMatches(db.sessions[k], attemptId, sessionToken, studentId, now);
  }

  /** The sessions after updateMany(lastActivity := now) on the attempt's sessions. */
  function Touched(sessions: map<nat, Session>, attemptId: nat, now: Time): map<nat, Session>
  {
    map k | k in sessions :: if sessions[k].attemptId == attemptId then sessions[k].(lastActivity := now) else sessions[k]
  }

  /** Touching an attempt that has no session changes nothing. */
  lemma TouchedNoSession(sessions: map<nat, Session>, attemptId: nat, now: Time)
    requires SessionsOfAttempts(sessions, {attemptId}) == {}
    ensures Touched(sessions, attemptId, now) == sessions
  {
    forall k | k in sessions ensures Touched(sessions, attemptId, now)[k] == sessions[k] {
      assert k !in SessionsOfAttempts(sessions, {attemptId});
    }
  }

  /** Touching keeps the rows, their owners and their expiry; only lastActivity moves. */
  lemma TouchedKeepsRows(sessions: map<nat, Session>, attemptId: nat, now: Time)
    ensures Touched(sessions, attemptId, now).Keys == sessions.Keys
    ensures forall k :: k in sessions ==>
      Touched(sessions, attemptId, now)[k].(lastActivity := 0) == sessions[k].(lastActivity := 0)
    ensures OnePerStudent(sessions) ==> OnePerStudent(Touched(sessions, attemptId, now))
  {
    var t := Touched(sessions, attemptId, now);
    forall k | k in sessions ensures t[k].(lastActivity := 0) == sessions[k].(lastActivity := 0) {
    }
  }

  /** updateSessionActivity: an updateMany, hence a no-op when the attempt has no session. */
  method UpdateSessionActivity(db: Database, attemptId: nat, now: Time)
    requires db.Valid()
    modifies db
    ensures db.Valid()
    ensures db.sessions == Touched(old(db.sessions), attemptId, now)
    ensures db.attempts == old(db.attempts) && db.answers == old(db.answers) && db.records == old(db.records)
    ensures db.packages == old(db.packages) && db.categories == old(db.categories) && db.nextId == old(db.nextId)
  {
    db.sessions := Touched(db.sessions, attemptId, now);
  }

  datatype GuardOutcome =
    | NotAuthenticated
    | InvalidJwt
    | NoActiveSession
    | OtherAttempt(activeAttemptId: nat)
    | InvalidSessionToken
    | GuardOk(studentId: nat, sessionId: nat)

  /** The HTTP status each outcome is answered with. */
  function GuardStatus(o: GuardOutcome): (code: int)
    ensures o.GuardOk? <==> code == 200
    ensures (o.NotAuthenticated? || o.InvalidJwt?) <==> code == 401
  {
    match o
      case NotAuthenticated => 401
      case InvalidJwt => 401
      case NoActiveSession => 403
      case OtherAttempt(_) => 403
      case InvalidSessionToken => 403
      case GuardOk(_, _) => 200
  }

  /** Where the client is sent after a rejection that asks for a redirect. */
  function GuardRedirect(o: GuardOutcome): (r: Option<string>)
    ensures r.Some? <==> o.NoActiveSession? || o.OtherAttempt?
  {
    match o
      case NoActiveSession => Some("/dashboard")
      case OtherAttempt(a) => Some("/test/" + AttemptPath(a))
      case _ => None
  }

  /** The attempt id as it appears in a path; ids are opaque strings in the store. */
  function AttemptPath(a: nat): string
  {
    if a < 10 then [(a + 48) as char] else AttemptPath(a / 10) + [(a % 10 + 48) as char]
  }

  /**
   * enforceSessionGuard. token is the auth cookie ("" when absent), sub the
   * subject of the verified token (None when verification fails or the
   * token carries none), attemptId the attempt the route addresses (None
   * when it names none) and header the x-session-token header ("" when
   * absent). The checks run in the order of the source and only a request
   * that passes all of them touches the session.
   */
  method EnforceSessionGuard(db: Database, token: string, sub: Option<nat>, attemptId: Option<nat>,
                             header: string, now: Time) returns (out: GuardOutcome)
    requires db.Valid()
    modifies db
    ensures db.Valid()
    ensures out == NotAuthenticated <==> token == ""
    ensures out == InvalidJwt <==> token != "" && sub.None?
    ensures out == NoActiveSession <==>
      token != "" && sub.Some? && LiveSessionsOf(old(db.attempts), old(db.sessions), sub.value, now) == {}
    ensures out.OtherAttempt? ==> attemptId.Some? && out.activeAttemptId != attemptId.value
    ensures out.OtherAttempt? ==>
      (exists k :: k in LiveSessionsOf(old(db.attempts), old(db.sessions), sub.value, now)
         && old(db.sessions)[k].attemptId == out.activeAttemptId)
    ensures out.InvalidSessionToken? ==> header != ""
    ensures out.InvalidSessionToken? && attemptId.Some? ==>
      !(exists k :: k in old(db.sessions) && TokenMatches(old(db.sessions)[k], attemptId.value, header, sub.value, now))
    ensures out.GuardOk? && header != "" && out.sessionId in old(db.sessions) ==>
      (exists k :: k in old(db.sessions) &&
         TokenMatches(old(db.sessions)[k], old(db.sessions)[out.sessionId].attemptId, header, out.studentId, now))
    ensures out.GuardOk? ==>
      && sub == Some(out.studentId)
      && out.sessionId in LiveSessionsOf(old(db.attempts), old(db.sessions), out.studentId, now)
      && (attemptId.None? || old(db.sessions)[out.sessionId].attemptId == attemptId.value)
      && db.sessions == Touched(old(db.sessions), old(db.sessions)[out.sessionId].attemptId, now)
    ensures !out.GuardOk? ==> db.sessions == old(db.sessions)
    ensures db.attempts == old(db.attempts) && db.answers == old(db.answers) && db.records == old(db.records)
    ensures db.packages == old(db.packages) && db.categories == old(db.categories) && db.nextId == old(db.nextId)
  {
    if token == "" {
      return NotAuthenticated;
    }
    if sub.None? {
      return InvalidJwt;
    }
    var studentId := sub.value;
    var active := GetActiveSession(db, studentId, now);
    if active.None? {
      return NoActiveSession;
    }
    var sid := active.value;
    var bound := db.sessions[sid].attemptId;
    if attemptId.Some? && bound != attemptId.value {
      return OtherAttempt(bound);
    }
    if header != "" {
      var valid := ValidateSessionToken(db, bound, header, studentId, now);
      if !valid {
        return InvalidSessionToken;
      }
    }
    UpdateSessionActivity(db, bound, now);
    return GuardOk(studentId, sid);
  }

  /**
   * The token check is a sound extra gate: the guarded session itself
   * carries a valid token whenever the header equals its sessionToken.
   */
  lemma OwnTokenIsValid(attempts: map<nat, Attempt>, sessions: map<nat, Session>, studentId: nat, now: Time, k: nat)
    requires k in LiveSessionsOf(attempts, sessions, studentId, now)
    ensures exists j :: j in sessions && TokenMatches(sessions[j], sessions[k].attemptId, sessions[k].sessionToken, studentId, now)
  {
    assert TokenMatches(sessions[k], sessions[k].attemptId, sessions[k].sessionToken, studentId, now);
  }
}
