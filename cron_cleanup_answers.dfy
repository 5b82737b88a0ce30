/**
 * GET /api/cron/cleanup-answers (app/api/cron/cleanup-answers/route.js):
 * the retention job for test data in progress. Four passes run one after
 * the other against a cutoff retentionDays before now: old temporary
 * answers, sessions that expired before the cutoff (with their attempts'
 * answers, in one transaction), incomplete attempts started before the
 * cutoff, and records created before the cutoff that hold no attempt.
 * Completed attempts are never touched.
 */
module CronCleanupAnswers {
  import opened Common
  import opened Db

  const DayMs: int := 24 * 60 * 60 * 1000

  /**
   * The cron secret is enforced only when one is configured ("" when
   * unset); header is the x-cron-secret header, None when absent.
   */
  predicate CronAuthorized(configured: string, header: Option<string>)
  {
    configured == "" || header == Some(configured)
  }

  /** A request without the header passes exactly when no secret is configured. */
  lemma CronSecretOptional(configured: string)
    ensures CronAuthorized(configured, None) <==> configured == ""
    ensures CronAuthorized(configured, Some(configured))
  {
  }

  function RetentionCutoff(now: Time, retentionDays: int): (cutoff: Time)
    ensures retentionDays >= 0 ==> cutoff <= now
    ensures now - cutoff == retentionDays * 86_400_000
  {
    now - retentionDays * DayMs
  }

  function StaleAnswers(answers: map<(nat, nat), StoredAnswer>, cutoff: Time): set<(nat, nat)>
  {
    set k | k in answers && answers[k].createdAt < cutoff
  }

  function StaleSessions(sessions: map<nat, Session>, cutoff: Time): set<nat>
  {
    set k | k in sessions && sessions[k].expiresAt < cutoff
  }

  function StaleAttempts(attempts: map<nat, Attempt>, cutoff: Time): set<nat>
  {
    set k | k in attempts && attempts[k].completedAt.None? && attempts[k].startedAt < cutoff
  }

  function StaleRecords(records: map<nat, Record>, attempts: map<nat, Attempt>, cutoff: Time): set<nat>
  {
    set r | r in EmptyRecords(records, attempts) && records[r].createdAt < cutoff
  }

  datatype CleanupReply =
    | Unauthorized
    | Cleaned(cutoff: Time, deletedAnswers: nat, deletedSessions: nat, deletedAttempts: nat, deletedRecords: nat)

  method CleanupAnswers(db: Database, configured: string, header: Option<string>, now: Time, retentionDays: int)
    returns (r: CleanupReply)
    requires db.Valid()
    modifies db
    ensures db.Valid()
    ensures r.Unauthorized? <==> !CronAuthorized(configured, header)
    ensures r.Unauthorized? ==>
      db.answers == old(db.answers) && db.sessions == old(db.sessions)
      && db.attempts == old(db.attempts) && db.records == old(db.records)
    ensures r.Cleaned? ==>
      var cutoff := RetentionCutoff(now, retentionDays);
      var answers1 := DropKeys(old(db.answers), StaleAnswers(old(db.answers), cutoff));
      var stale := StaleSessions(old(db.sessions), cutoff);
      var attempts3 := DropKeys(old(db.attempts), StaleAttempts(old(db.attempts), cutoff));
      && r.cutoff == cutoff
      && r.deletedAnswers == |StaleAnswers(old(db.answers), cutoff)|
      && db.answers == DropAnswersOf(answers1, AttemptsOfSessions(old(db.sessions), stale))
      && r.deletedSessions == |stale|
      && db.sessions == DropKeys(old(db.sessions), stale)
      && r.deletedAttempts == |StaleAttempts(old(db.attempts), cutoff)|
      && db.attempts == attempts3
      && r.deletedRecords == |StaleRecords(old(db.records), attempts3, cutoff)|
      && db.records == DropKeys(old(db.records), StaleRecords(old(db.records), attempts3, cutoff))
    ensures r.Cleaned? ==>
      && (forall k :: k in db.answers ==> db.answers[k].createdAt >= r.cutoff)
      && (forall k :: k in db.sessions ==> db.sessions[k].expiresAt >= r.cutoff)
      && (forall k :: k in db.attempts && db.attempts[k].completedAt.None? ==> db.attempts[k].startedAt >= r.cutoff)
    ensures KeepsCompleted(old(db.attempts), db.attempts)
    ensures KeepsReferenced(db.attempts, old(db.records), db.records)
    ensures old(db.OneSessionPerStudent()) ==> db.OneSessionPerStudent()
    ensures db.packages == old(db.packages) && db.categories == old(db.categories) && db.nextId == old(db.nextId)
  {
    if !CronAuthorized(configured, header) {
      return Unauthorized;
    }
    var cutoff := RetentionCutoff(now, retentionDays);
    var answers, sessions, attempts, records := db.answers, db.sessions, db.attempts, db.records;

    // 1. temporary answers created before the cutoff
    var oldAnswers := StaleAnswers(answers, cutoff);
    answers := DropKeys(answers, oldAnswers);

    // 2. sessions expired before the cutoff, with their attempts' answers
    var stale := StaleSessions(sessions, cutoff);
    if |stale| > 0 {
      ghost var before := sessions;
      answers := DropAnswersOf(answers, AttemptsOfSessions(sessions, stale));
      sessions := DropKeys(sessions, stale);
      DropKeepsOnePerStudent(before, stale);
    } else {
      DropKeysOfNothing(sessions, stale);
      DropAnswersOfNothing(answers, AttemptsOfSessions(sessions, stale));
    }

    // 3. incomplete attempts started before the cutoff
    var oldAttempts := StaleAttempts(attempts, cutoff);
    DropIncompleteKeepsCompleted(attempts, oldAttempts);
    attempts := DropKeys(attempts, oldAttempts);

    // 4. records created before the cutoff that hold no attempt now
    var oldRecords := StaleRecords(records, attempts, cutoff);
    DropEmptyKeepsReferenced(records, attempts, oldRecords);
    records := DropKeys(records, oldRecords);

    db.WriteRows(attempts, sessions, answers, records);
    return Cleaned(cutoff, |oldAnswers|, |stale|, |oldAttempts|, |oldRecords|);
  }

  /**
   * A second run with the same cutoff finds nothing left to delete: each
   * pass's condition is false for every row that survived it.
   */
  lemma CleanupLeavesNothingStale(answers: map<(nat, nat), StoredAnswer>, sessions: map<nat, Session>,
                                  attempts: map<nat, Attempt>, records: map<nat, Record>, cutoff: Time)
    ensures StaleAnswers(DropKeys(answers, StaleAnswers(answers, cutoff)), cutoff) == {}
    ensures StaleSessions(DropKeys(sessions, StaleSessions(sessions, cutoff)), cutoff) == {}
    ensures StaleAttempts(DropKeys(attempts, StaleAttempts(attempts, cutoff)), cutoff) == {}
    ensures StaleRecords(DropKeys(records, StaleRecords(records, attempts, cutoff)), attempts, cutoff) == {}
  {
  }
}
