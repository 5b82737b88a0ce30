/**
 * GET /api/student/active-session (app/api/student/active-session/route.js):
 * a student asks which test is still running. The answer is the live
 * session with the latest activity; as a side effect the student's test
 * records that hold no attempt are purged, and a failure of that purge is
 * swallowed.
 */
module ActiveSession {
  import opened Common
  import opened Db
  import opened SessionGuard

  datatype ActiveSessionView = ActiveSessionView(attemptId: nat, categoryName: string, expiresAt: Time, isExpired: bool)

  datatype ActiveSessionReply = Forbidden | Reply(activeSession: Option<ActiveSessionView>)

  /** The student's records that hold no attempt. */
  function EmptyRecordsOf(records: map<nat, Record>, attempts: map<nat, Attempt>, studentId: nat): set<nat>
  {
    set r | r in EmptyRecords(records, attempts) && records[r].studentId == studentId
  }

  /**
   * role is the role claim of the verified token and purgeFails says
   * whether the deleteMany of empty records throws (it is ignored).
   */
  method GetActiveSessionRoute(db: Database, studentId: nat, role: string, now: Time, purgeFails: bool)
    returns (r: ActiveSessionReply)
    requires db.Valid()
    modifies db
    ensures db.Valid()
    ensures r.Forbidden? <==> role != "STUDENT"
    ensures r.Forbidden? || purgeFails ==> db.records == old(db.records)
    ensures r.Reply? && !purgeFails ==>
      db.records == DropKeys(old(db.records), EmptyRecordsOf(old(db.records), old(db.attempts), studentId))
    ensures KeepsReferenced(db.attempts, old(db.records), db.records)
    ensures r.Reply? ==> (r.activeSession.None? <==> LiveSessionsOf(db.attempts, db.sessions, studentId, now) == {})
    ensures r.Reply? && r.activeSession.Some? ==> exists k ::
      && k in LiveSessionsOf(db.attempts, db.sessions, studentId, now)
      && (forall j :: j in LiveSessionsOf(db.attempts, db.sessions, studentId, now) ==>
            db.sessions[j].lastActivity <= db.sessions[k].lastActivity)
      && r.activeSession.value ==
           ActiveSessionView(db.sessions[k].attemptId, db.sessions[k].categoryName, db.sessions[k].expiresAt, false)
    ensures r.Reply? && r.activeSession.Some? ==> r.activeSession.value.expiresAt > now && !r.activeSession.value.isExpired
    ensures db.attempts == old(db.attempts) && db.sessions == old(db.sessions) && db.answers == old(db.answers)
    ensures db.packages == old(db.packages) && db.categories == old(db.categories) && db.nextId == old(db.nextId)
  {
    if role != "STUDENT" {
      return Forbidden;
    }
    var active := GetActiveSession(db, studentId, now);
    var view: Option<ActiveSessionView> := None;
    if active.Some? {
      var s := db.sessions[active.value];
      view := Some(ActiveSessionView(s.attemptId, s.categoryName, s.expiresAt, false));
    }
    if !purgeFails {
      var empty := EmptyRecordsOf(db.records, db.attempts, studentId);
      DropEmptyKeepsReferenced(db.records, db.attempts, empty);
      db.records := DropKeys(db.records, empty);
    }
    return Reply(view);
  }
}
