/**
 * The session clean-up helpers of src/utils/session-cleanup.js. Each one
 * deletes or finalises rows of the test tables; those that run inside one
 * transaction are modelled as all-or-nothing methods, and those that run
 * statement by statement keep the effects of the statements that ran
 * before a failure.
 */
module SessionCleanup {
  import opened Common
  import opened Grading
  import opened Db
  import opened AttemptGrading

  /**
   * cleanupDuplicateSessions: with at most one session the student is left
   * alone and 0 is returned; otherwise the session with the latest
   * lastActivity is kept, every other session of the student is deleted
   * with the temporary answers of its attempt, and the number deleted is
   * returned.
   */
  method CleanupDuplicateSessions(db: Database, studentId: nat) returns (count: nat)
    requires db.Valid()
    modifies db
    ensures db.Valid()
    ensures |SessionsOfStudent(old(db.sessions), studentId)| <= 1 ==>
      count == 0 && db.sessions == old(db.sessions) && db.answers == old(db.answers)
    ensures |SessionsOfStudent(old(db.sessions), studentId)| > 1 ==>
      count == |SessionsOfStudent(old(db.sessions), studentId)| - 1
    ensures |SessionsOfStudent(old(db.sessions), studentId)| > 1 ==> exists keep ::
      && keep in SessionsOfStudent(old(db.sessions), studentId)
      && (forall j :: j in SessionsOfStudent(old(db.sessions), studentId) ==>
            old(db.sessions)[j].lastActivity <= old(db.sessions)[keep].lastActivity)
      && db.sessions == DropKeys(old(db.sessions), SessionsOfStudent(old(db.sessions), studentId) - {keep})
      && db.answers == DropAnswersOf(old(db.answers),
           AttemptsOfSessions(old(db.sessions), SessionsOfStudent(old(db.sessions), studentId) - {keep}))
    ensures |SessionsOfStudent(db.sessions, studentId)| <= 1
    ensures old(db.OneSessionPerStudent()) ==> db.OneSessionPerStudent()
    ensures db.attempts == old(db.attempts) && db.records == old(db.records)
    ensures db.packages == old(db.packages) && db.categories == old(db.categories) && db.nextId == old(db.nextId)
  {
    var mine := SessionsOfStudent(db.sessions, studentId);
    if |mine| <= 1 {
      return 0;
    }
    var keep := LatestSession(db.sessions, mine);
    var drop := mine - {keep};
    ghost var before := db.sessions;
    db.answers := DropAnswersOf(db.answers, AttemptsOfSessions(db.sessions, drop));
    db.sessions := DropKeys(db.sessions, drop);
    assert SessionsOfStudent(db.sessions, studentId) == {keep};
    DropKeepsOnePerStudent(before, drop);
    return |drop|;
  }

  /** The sessions that expired strictly before now, whatever their attempt. */
  function ExpiredSessions(sessions: map<nat, Session>, now: Time): set<nat>
  {
    set k | k in sessions && sessions[k].expiresAt < now
  }

  /**
   * removeExpiredSessions: every session with expiresAt < now is deleted,
   * together with the temporary answers of its attempt, in one transaction;
   * attempts are not touched. Returns how many sessions were deleted.
   */
  method RemoveExpiredSessions(db: Database, now: Time) returns (count: nat)
    requires db.Valid()
    modifies db
    ensures db.Valid()
    ensures count == |ExpiredSessions(old(db.sessions), now)|
    ensures db.sessions == DropKeys(old(db.sessions), ExpiredSessions(old(db.sessions), now))
    ensures db.answers == DropAnswersOf(old(db.answers), AttemptsOfSessions(old(db.sessions), ExpiredSessions(old(db.sessions), now)))
    ensures forall k :: k in db.sessions ==> db.sessions[k].expiresAt >= now
    ensures old(db.OneSessionPerStudent()) ==> db.OneSessionPerStudent()
    ensures db.attempts == old(db.attempts) && db.records == old(db.records)
    ensures db.packages == old(db.packages) && db.categories == old(db.categories) && db.nextId == old(db.nextId)
  {
    var expired := ExpiredSessions(db.sessions, now);
    if |expired| == 0 {
      DropKeysOfNothing(db.sessions, expired);
      DropAnswersOfNothing(db.answers, AttemptsOfSessions(db.sessions, expired));
      return 0;
    }
    ghost var before := db.sessions;
    db.answers := DropAnswersOf(db.answers, AttemptsOfSessions(db.sessions, expired));
    db.sessions := DropKeys(db.sessions, expired);
    DropKeepsOnePerStudent(before, expired);
    return |expired|;
  }

  /**
   * finalizeExpiredSession run outside a transaction (its default): stamp
   * completedAt = expiresAt on the attempt, delete the attempt's temporary
   * answers, then delete the session. Each statement that fails stops the
   * sequence but keeps what the earlier ones wrote; ok reports whether all
   * three ran. totalScore is left as it was.
   */
  method FinalizeExpiredSession(db: Database, attemptId: nat, sessionId: nat, expiresAt: Time) returns (ok: bool)
    requires db.Valid()
    modifies db
    ensures db.Valid()
    ensures ok <==> attemptId in old(db.attempts) && sessionId in old(db.sessions)
    ensures attemptId !in old(db.attempts) ==>
      db.attempts == old(db.attempts) && db.answers == old(db.answers) && db.sessions == old(db.sessions)
    ensures attemptId in old(db.attempts) ==>
      && db.attempts == old(db.attempts)[attemptId := old(db.attempts)[attemptId].(completedAt := Some(expiresAt))]
      && db.answers == DropAnswersOf(old(db.answers), {attemptId})
      && db.sessions == DropKeys(old(db.sessions), {sessionId})
    ensures old(db.OneSessionPerStudent()) ==> db.OneSessionPerStudent()
    ensures db.records == old(db.records)
    ensures db.packages == old(db.packages) && db.categories == old(db.categories) && db.nextId == old(db.nextId)
  {
    if attemptId !in db.attempts {
      return false;
    }
    db.attempts := db.attempts[attemptId := db.attempts[attemptId].(completedAt := Some(expiresAt))];
    db.answers := DropAnswersOf(db.answers, {attemptId});
    if sessionId !in db.sessions {
      DropKeysOfNothing(db.sessions, {sessionId});
      return false;
    }
    ghost var before := db.sessions;
    db.sessions := DropKeys(db.sessions, {sessionId});
    DropKeepsOnePerStudent(before, {sessionId});
    return true;
  }

  datatype AutoSubmitOutcome = NotExpired | Submitted(score: int) | Aborted

  /**
   * autoSubmitExpiredSession with gradeAttempt as the grading function. A
   * session expiring after now is left alone (expiresAt == now counts as
   * expired). Otherwise one transaction grades the attempt, writes
   * completedAt = expiresAt and the score, deletes the attempt's temporary
   * answers and deletes the session; a missing attempt or a missing session
   * rolls all of it back.
   */
  method AutoSubmitExpiredSession(db: Database, attemptId: nat, sessionId: nat, expiresAt: Time, now: Time)
    returns (r: AutoSubmitOutcome)
    requires db.Valid()
    modifies db
    ensures db.Valid()
    ensures r.NotExpired? <==> expiresAt > now
    ensures r.Submitted? <==> expiresAt <= now && attemptId in old(db.attempts) && sessionId in old(db.sessions)
    ensures !r.Submitted? ==> db.attempts == old(db.attempts) && db.answers == old(db.answers) && db.sessions == old(db.sessions)
    ensures r.Submitted? ==>
      && r.score == StoreGrade(old(db.attempts), old(db.packages), old(db.answers), attemptId).totalScore
      && db.attempts == old(db.attempts)[attemptId := old(db.attempts)[attemptId].(completedAt := Some(expiresAt), totalScore := Some(r.score))]
      && db.answers == DropAnswersOf(old(db.answers), {attemptId})
      && db.sessions == DropKeys(old(db.sessions), {sessionId})
    ensures old(db.OneSessionPerStudent()) ==> db.OneSessionPerStudent()
    ensures db.records == old(db.records)
    ensures db.packages == old(db.packages) && db.categories == old(db.categories) && db.nextId == old(db.nextId)
  {
    if expiresAt > now {
      return NotExpired;
    }
    var grade := GradeAttempt(db, attemptId);
    if attemptId !in db.attempts || sessionId !in db.sessions {
      return Aborted;
    }
    SubmitTransaction(db, attemptId, sessionId, expiresAt, grade.totalScore);
    return Submitted(grade.totalScore);
  }

  /** The writes of the transaction: completedAt and the score, then the answers and the session deleted. */
  method SubmitTransaction(db: Database, attemptId: nat, sessionId: nat, expiresAt: Time, score: int)
    requires db.Valid() && attemptId in db.attempts && sessionId in db.sessions
    modifies db
    ensures db.Valid()
    ensures db.attempts == old(db.attempts)[attemptId := old(db.attempts)[attemptId].(completedAt := Some(expiresAt), totalScore := Some(score))]
    ensures db.answers == DropAnswersOf(old(db.answers), {attemptId})
    ensures db.sessions == DropKeys(old(db.sessions), {sessionId})
    ensures old(db.OneSessionPerStudent()) ==> db.OneSessionPerStudent()
    ensures db.records == old(db.records)
    ensures db.packages == old(db.packages) && db.categories == old(db.categories) && db.nextId == old(db.nextId)
  {
    ghost var before := db.sessions;
    db.attempts := db.attempts[attemptId := db.attempts[attemptId].(completedAt := Some(expiresAt), totalScore := Some(score))];
    db.answers := DropAnswersOf(db.answers, {attemptId});
    db.sessions := DropKeys(db.sessions, {sessionId});
    DropKeepsOnePerStudent(before, {sessionId});
  }

  /**
   * Submitting the same session twice: the second call finds the session
   * gone, aborts and writes nothing, so a session finalises its attempt at
   * most once.
   */
  method AutoSubmitTwice(db: Database, attemptId: nat, sessionId: nat, expiresAt: Time, now: Time)
    returns (first: AutoSubmitOutcome, second: AutoSubmitOutcome)
    requires db.Valid()
    modifies db
    ensures first.Submitted? ==> second == Aborted
    ensures !first.NotExpired? ==> !second.Submitted?
  {
    first := AutoSubmitExpiredSession(db, attemptId, sessionId, expiresAt, now);
    ghost var mid := db.sessions;
    second := AutoSubmitExpiredSession(db, attemptId, sessionId, expiresAt, now);
  }

  /**
   * cleanupAfterSubmit: the attempt's temporary answers and sessions are
   * deleted by attemptId (deleteMany, so nothing happens when they are
   * already gone).
   */
  method CleanupAfterSubmit(db: Database, attemptId: nat)
    requires db.Valid()
    modifies db
    ensures db.Valid()
    ensures db.answers == DropAnswersOf(old(db.answers), {attemptId})
    ensures db.sessions == DropKeys(old(db.sessions), SessionsOfAttempts(old(db.sessions), {attemptId}))
    ensures (forall k :: k in db.answers ==> k.0 != attemptId) && SessionsOfAttempts(db.sessions, {attemptId}) == {}
    ensures old(db.OneSessionPerStudent()) ==> db.OneSessionPerStudent()
    ensures db.attempts == old(db.attempts) && db.records == old(db.records)
    ensures db.packages == old(db.packages) && db.categories == old(db.categories) && db.nextId == old(db.nextId)
  {
    ghost var before := db.sessions;
    db.answers := DropAnswersOf(db.answers, {attemptId});
    db.sessions := DropKeys(db.sessions, SessionsOfAttempts(db.sessions, {attemptId}));
    DropKeepsOnePerStudent(before, SessionsOfAttempts(before, {attemptId}));
  }

  /** A second cleanupAfterSubmit of the same attempt deletes nothing more. */
  lemma CleanupAfterSubmitIdempotent(answers: map<(nat, nat), StoredAnswer>, sessions: map<nat, Session>, attemptId: nat)
    ensures DropAnswersOf(DropAnswersOf(answers, {attemptId}), {attemptId}) == DropAnswersOf(answers, {attemptId})
    ensures var s := DropKeys(sessions, SessionsOfAttempts(sessions, {attemptId}));
      DropKeys(s, SessionsOfAttempts(s, {attemptId})) == s
  {
    var s := DropKeys(sessions, SessionsOfAttempts(sessions, {attemptId}));
    assert SessionsOfAttempts(s, {attemptId}) == {};
    DropKeysOfNothing(s, {});
  }
}
