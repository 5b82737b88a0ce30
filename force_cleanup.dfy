/**
 * POST /api/test/force-cleanup (app/api/test/force-cleanup/route.js): the
 * authenticated student's sessions are purged unconditionally. The
 * temporary answers of each session's attempt are deleted one session at a
 * time, then all the student's sessions in one statement. Attempts and
 * records are neither graded, completed nor deleted.
 */
module ForceCleanup {
  import opened Common
  import opened Db

  datatype ForceCleanupResult = NotCleaned | Cleaned(count: nat)

  method ForceCleanup(db: Database, studentId: nat) returns (r: ForceCleanupResult)
    requires db.Valid()
    modifies db
    ensures db.Valid()
    ensures r.NotCleaned? <==> SessionsOfStudent(old(db.sessions), studentId) == {}
    ensures r.Cleaned? ==> r.count == |SessionsOfStudent(old(db.sessions), studentId)|
    ensures db.answers ==
      DropAnswersOf(old(db.answers), AttemptsOfSessions(old(db.sessions), SessionsOfStudent(old(db.sessions), studentId)))
    ensures db.sessions == DropKeys(old(db.sessions), SessionsOfStudent(old(db.sessions), studentId))
    ensures SessionsOfStudent(db.sessions, studentId) == {}
    ensures r.NotCleaned? ==> db.answers == old(db.answers) && db.sessions == old(db.sessions)
    ensures old(db.OneSessionPerStudent()) ==> db.OneSessionPerStudent()
    ensures db.attempts == old(db.attempts) && db.records == old(db.records)
    ensures db.packages == old(db.packages) && db.categories == old(db.categories) && db.nextId == old(db.nextId)
  {
    var sessions := db.sessions;
    var mine := SessionsOfStudent(sessions, studentId);
    if mine == {} {
      DropKeysOfNothing(db.sessions, mine);
      DropAnswersOfNothing(db.answers, AttemptsOfSessions(sessions, mine));
      return NotCleaned;
    }
    var answers := db.answers;
    var remaining := mine;
    ghost var done: set<nat> := {};
    while remaining != {}
      invariant done <= mine && remaining == mine - done
      invariant answers == DropAnswersOf(old(db.answers), AttemptsOfSessions(sessions, done))
      invariant unchanged(db)
      decreases |remaining|
    {
      var k :| k in remaining;
      DropAnswersOfTwice(old(db.answers), AttemptsOfSessions(sessions, done), {sessions[k].attemptId});
      assert AttemptsOfSessions(sessions, done + {k}) == AttemptsOfSessions(sessions, done) + {sessions[k].attemptId};
      answers := DropAnswersOf(answers, {sessions[k].attemptId});
      done := done + {k};
      remaining := remaining - {k};
    }
    DropKeepsOnePerStudent(sessions, mine);
    db.WriteRows(db.attempts, DropKeys(sessions, mine), answers, db.records);
    return Cleaned(|mine|);
  }
}
