/**
 * POST /api/test/start (app/api/test/start/route.js): start or resume the
 * test of one category. The route refuses while another test is running,
 * settles on a test record, reuses an incomplete attempt of the category
 * in that record or creates a new attempt, and in every successful case
 * leaves the student with exactly one session.
 *
 * The clock is read twice: now inside getActiveSession, and later for
 * everything after it (later >= now). Between the two readings a running
 * session may expire, which is the only way the route's expiry branch is
 * taken.
 */
module Start {
  import opened Common
  import opened Grading
  import opened Db
  import opened SessionGuard
  import opened SessionCleanup

  datatype StartReply =
    | PackageIdRequired
    | CategoryIdRequired
    | ActiveElsewhere(activeAttemptId: nat, categoryName: string)
    | CategoryNotFound
    | PackageNotFound
    | AlreadyCompleted(recordId: nat, categoryId: nat, attemptId: nat)
    | Started(attemptId: nat, sessionToken: string, recordId: nat)
    | StartFailed

  /** The client's testMeta: absent, an object, or some other value (ignored). */
  datatype MetaInput = NoMeta | MetaObject(raw: string) | MetaOther

  // ---------------------------------------------------------------------
  // Step 1: a running test blocks the start
  // ---------------------------------------------------------------------

  /**
   * Session k was the student's latest running session at now, had expired
   * by later, and was auto-submitted: its attempt is completed at the
   * expiry with the stored grade, the attempt's answers and session k are
   * gone, and nothing else changed.
   */
  ghost predicate ClosedExpired(attempts0: map<nat, Attempt>, sessions0: map<nat, Session>,
                                answers0: map<(nat, nat), StoredAnswer>, packages: map<nat, Package>,
                                studentId: nat, now: Time, later: Time, k: nat,
                                attempts: map<nat, Attempt>, sessions: map<nat, Session>,
                                answers: map<(nat, nat), StoredAnswer>)
  {
    && k in LiveSessionsOf(attempts0, sessions0, studentId, now)
    && (forall j :: j in LiveSessionsOf(attempts0, sessions0, studentId, now) ==>
          sessions0[j].lastActivity <= sessions0[k].lastActivity)
    && sessions0[k].expiresAt < later
    && var a := sessions0[k].attemptId;
       && attempts == attempts0[a := attempts0[a].(completedAt := Some(sessions0[k].expiresAt),
                                                   totalScore := Some(StoreGrade(attempts0, packages, answers0, a).totalScore))]
       && answers == DropAnswersOf(answers0, {a})
       && sessions == DropKeys(sessions0, {k})
  }

  /**
   * The active-session check: a running session whose expiry has passed
   * by the later clock reading is auto-submitted and the start goes on; a
   * session still running blocks the start with its attempt.
   */
  method CheckRunning(db: Database, studentId: nat, now: Time, later: Time) returns (blocked: Option<(nat, string)>)
    requires db.Valid() && now <= later
    modifies db
    ensures db.Valid()
    ensures LiveSessionsOf(old(db.attempts), old(db.sessions), studentId, now) == {} ==>
      blocked.None? && db.attempts == old(db.attempts) && db.sessions == old(db.sessions) && db.answers == old(db.answers)
    ensures blocked.Some? ==> exists k ::
      && k in LiveSessionsOf(old(db.attempts), old(db.sessions), studentId, now)
      && old(db.sessions)[k].expiresAt >= later
      && blocked.value == (old(db.sessions)[k].attemptId, old(db.sessions)[k].categoryName)
    ensures blocked.Some? ==> db.attempts == old(db.attempts) && db.sessions == old(db.sessions) && db.answers == old(db.answers)
    ensures (forall k :: k in LiveSessionsOf(old(db.attempts), old(db.sessions), studentId, now) ==>
               old(db.sessions)[k].expiresAt >= later)
            ==> (blocked.Some? <==> LiveSessionsOf(old(db.attempts), old(db.sessions), studentId, now) != {})
    ensures blocked.None? && LiveSessionsOf(old(db.attempts), old(db.sessions), studentId, now) != {} ==>
      exists k :: ClosedExpired(old(db.attempts), old(db.sessions), old(db.answers), old(db.packages),
                                studentId, now, later, k, db.attempts, db.sessions, db.answers)
    ensures old(db.OneSessionPerStudent())
            && (exists k :: k in LiveSessionsOf(old(db.attempts), old(db.sessions), studentId, now)
                            && old(db.sessions)[k].expiresAt < later)
            ==> blocked.None?
    ensures KeepsCompleted(old(db.attempts), db.attempts)
    ensures old(db.OneSessionPerStudent()) ==> db.OneSessionPerStudent()
    ensures db.records == old(db.records)
    ensures db.packages == old(db.packages) && db.categories == old(db.categories) && db.nextId == old(db.nextId)
  {
    var active := GetActiveSession(db, studentId, now);
    if active.None? {
      return None;
    }
    var sid := active.value;
    var s := db.sessions[sid];
    if s.expiresAt < later {
      // The session ran out between the two clock readings: grade and close it.
      ghost var attempts0, sessions0, answers0 := db.attempts, db.sessions, db.answers;
      var outcome := AutoSubmitExpiredSession(db, s.attemptId, sid, s.expiresAt, later);
      assert outcome.Submitted?;
      assert ClosedExpired(attempts0, sessions0, answers0, db.packages, studentId, now, later, sid,
                           db.attempts, db.sessions, db.answers);
      return None;
    }
    // With one session per student, the latest running session is the only one.
    assert db.OneSessionPerStudent() ==>
      forall j :: j in LiveSessionsOf(db.attempts, db.sessions, studentId, now) ==> j == sid;
    // getActiveSession only returns sessions of existing incomplete
    // attempts, so the completed and missing attempt branches of the route
    // are not reached here.
    return Some((s.attemptId, s.categoryName));
  }

  // ---------------------------------------------------------------------
  // Step 2: the test record
  // ---------------------------------------------------------------------

  /** The student's records that hold an incomplete attempt. */
  function ActiveRecordsOf(records: map<nat, Record>, attempts: map<nat, Attempt>, studentId: nat): set<nat>
  {
    set r | r in RecordsOfStudent(records, studentId)
              && exists k :: k in attempts && attempts[k].recordId == Some(r) && attempts[k].completedAt.None?
  }

  /** r is a newest record of ids. */
  predicate Newest(records: map<nat, Record>, ids: set<nat>, r: nat)
  {
    r in ids && ids <= records.Keys && forall j :: j in ids ==> records[j].createdAt <= records[r].createdAt
  }

  /**
   * The record resolution order: the given record when the student owns
   * it, else the newest record holding an incomplete attempt, else the
   * newest record, else a record created now (with the next id).
   */
  predicate ResolvedId(records0: map<nat, Record>, attempts: map<nat, Attempt>, nextId0: nat,
                       studentId: nat, recordIdInput: Option<nat>, r: nat)
  {
    if recordIdInput.Some? && recordIdInput.value in RecordsOfStudent(records0, studentId) then
      r == recordIdInput.value
    else if ActiveRecordsOf(records0, attempts, studentId) != {} then
      Newest(records0, ActiveRecordsOf(records0, attempts, studentId), r)
    else if RecordsOfStudent(records0, studentId) != {} then
      Newest(records0, RecordsOfStudent(records0, studentId), r)
    else
      r == nextId0
  }

  /** The records after the resolution: a record is created only when the student has none. */
  function RecordsAfterResolve(records0: map<nat, Record>, nextId0: nat, studentId: nat, now: Time): map<nat, Record>
  {
    if RecordsOfStudent(records0, studentId) == {} then records0[nextId0 := Record(studentId, now, None, None)]
    else records0
  }

  /** The id counter after the resolution. */
  function NextAfterResolve(records0: map<nat, Record>, nextId0: nat, studentId: nat): nat
  {
    if RecordsOfStudent(records0, studentId) == {} then nextId0 + 1 else nextId0
  }

  /** The resolution with the state it leaves. */
  predicate ResolvedRecord(records0: map<nat, Record>, attempts: map<nat, Attempt>, nextId0: nat,
                           records: map<nat, Record>, nextId: nat,
                           studentId: nat, recordIdInput: Option<nat>, now: Time, r: nat)
  {
    && ResolvedId(records0, attempts, nextId0, studentId, recordIdInput, r)
    && records == RecordsAfterResolve(records0, nextId0, studentId, now)
    && nextId == NextAfterResolve(records0, nextId0, studentId)
  }

  method ResolveRecord(db: Database, studentId: nat, recordIdInput: Option<nat>, now: Time) returns (r: nat)
    requires db.Valid()
    modifies db
    ensures db.Valid()
    ensures ResolvedRecord(old(db.records), db.attempts, old(db.nextId), db.records, db.nextId,
                           studentId, recordIdInput, now, r)
    ensures r in db.records && db.records[r].studentId == studentId
    ensures db.attempts == old(db.attempts) && db.sessions == old(db.sessions) && db.answers == old(db.answers)
    ensures db.packages == old(db.packages) && db.categories == old(db.categories)
  {
    if recordIdInput.Some? && recordIdInput.value in RecordsOfStudent(db.records, studentId) {
      return recordIdInput.value;
    }
    var activeRecords := ActiveRecordsOf(db.records, db.attempts, studentId);
    if activeRecords != {} {
      r := LatestRecord(db.records, activeRecords);
      return;
    }
    var mine := RecordsOfStudent(db.records, studentId);
    if mine != {} {
      r := LatestRecord(db.records, mine);
      return;
    }
    r := NewRecord(db, studentId, now);
  }

  /** testRecord.create: a fresh record owned by the student, created now. */
  method NewRecord(db: Database, studentId: nat, now: Time) returns (r: nat)
    requires db.Valid()
    modifies db
    ensures db.Valid()
    ensures r == old(db.nextId) && r !in old(db.records)
    ensures db.records == old(db.records)[r := Record(studentId, now, None, None)] && db.nextId == old(db.nextId) + 1
    ensures db.attempts == old(db.attempts) && db.sessions == old(db.sessions) && db.answers == old(db.answers)
    ensures db.packages == old(db.packages) && db.categories == old(db.categories)
  {
    r := db.nextId;
    db.records := db.records[r := Record(studentId, now, None, None)];
    db.nextId := db.nextId + 1;
  }

  // ---------------------------------------------------------------------
  // Step 3: an attempt of the category in the record
  // ---------------------------------------------------------------------

  /** The student's attempts in the record whose package belongs to the category. */
  function CategoryAttempts(attempts: map<nat, Attempt>, packages: map<nat, Package>,
                            recordId: nat, studentId: nat, categoryId: nat): set<nat>
  {
    set k | k in attempts && attempts[k].recordId == Some(recordId) && attempts[k].studentId == studentId
              && attempts[k].packageId in packages && packages[attempts[k].packageId].categoryId == categoryId
  }

  /** The student's incomplete attempts in the record. */
  function IncompleteInRecord(attempts: map<nat, Attempt>, recordId: nat, studentId: nat): set<nat>
  {
    set k | k in attempts && attempts[k].recordId == Some(recordId) && attempts[k].studentId == studentId
              && attempts[k].completedAt.None?
  }

  // ---------------------------------------------------------------------
  // Step 4: the session (and attempt) transaction
  // ---------------------------------------------------------------------

  /** The session metadata: the client's object if any, else one rebuilt from the prepared categories. */
  function BuildMetadata(testMeta: MetaInput, prepared: seq<PreparedCategory>, recordId: nat): (m: Option<TestMeta>)
    ensures testMeta.MetaObject? ==> m == Some(ClientMeta(testMeta.raw))
    ensures !testMeta.MetaObject? && |prepared| == 0 ==> m.None?
    ensures !testMeta.MetaObject? && |prepared| > 0 ==>
      && m.Some? && m.value.BuiltMeta?
      && |m.value.categoryIds| == |prepared|
      && (forall i :: 0 <= i < |prepared| ==> m.value.categoryIds[i] == prepared[i].categoryId)
      && m.value.completedCategoryIds == [] && m.value.recordId == recordId && m.value.prepared == prepared
      && (m.value.mode == MultipleCategories <==> |prepared| > 1)
  {
    if testMeta.MetaObject? then Some(ClientMeta(testMeta.raw))
    else if |prepared| > 0 then
      Some(BuiltMeta(seq(|prepared|, i requires 0 <= i < |prepared| => prepared[i].categoryId), [], recordId, prepared,
                     if |prepared| > 1 then MultipleCategories else SingleCategory))
    else None
  }

  /** The student's sessions are replaced by one session, created with the next id. */
  method ReplaceSessions(db: Database, studentId: nat, s: Session) returns (sid: nat)
    requires db.Valid() && s.studentId == studentId
    modifies db
    ensures db.Valid()
    ensures sid == old(db.nextId) && db.nextId == old(db.nextId) + 1
    ensures db.sessions == DropKeys(old(db.sessions), SessionsOfStudent(old(db.sessions), studentId))[sid := s]
    ensures SessionsOfStudent(db.sessions, studentId) == {sid}
    ensures old(db.OneSessionPerStudent()) ==> db.OneSessionPerStudent()
    ensures db.attempts == old(db.attempts) && db.records == old(db.records) && db.answers == old(db.answers)
    ensures db.packages == old(db.packages) && db.categories == old(db.categories)
  {
    var mine := SessionsOfStudent(db.sessions, studentId);
    ghost var before := db.sessions;
    DropKeepsOnePerStudent(before, mine);
    sid := db.nextId;
    db.sessions := DropKeys(db.sessions, mine)[sid := s];
    db.nextId := db.nextId + 1;
    assert SessionsOfStudent(db.sessions, studentId) == {sid};
  }

  /** The reused-attempt session: a new token and an expiry counted from now. */
  function ReuseSession(studentId: nat, attemptId: nat, token: string, recordId: nat, categoryId: nat,
                        categoryName: string, packageId: nat, turnNumber: int, expiresAt: Time, now: Time): Session
  {
    Session(studentId, attemptId, token, Some(recordId), categoryId, categoryName, packageId, turnNumber,
            expiresAt, now, None)
  }

  /** The new attempt row with its title and category snapshots. */
  function NewAttempt(studentId: nat, packageId: nat, recordId: nat, title: string, categoryName: string, now: Time)
    : Attempt
  {
    Attempt(studentId, packageId, Some(recordId), now, None, None, Some(title), Some(categoryName))
  }

  /**
   * The new-attempt transaction: delete the student's sessions, create the
   * attempt, then create its session. raced stands for the unique index
   * on the session's studentId rejecting the insert (P2002 under a
   * concurrent start): then nothing is written.
   */
  method CreateAttemptAndSession(db: Database, studentId: nat, packageId: nat, recordId: nat, title: string,
                                 categoryId: nat, categoryName: string, turnNumber: int, token: string,
                                 expiresAt: Time, metadata: Option<TestMeta>, now: Time, raced: bool)
    returns (attemptId: Option<nat>)
    requires db.Valid()
    modifies db
    ensures db.Valid()
    ensures raced <==> attemptId.None?
    ensures raced ==> db.attempts == old(db.attempts) && db.sessions == old(db.sessions) && db.nextId == old(db.nextId)
    ensures attemptId.Some? ==>
      && attemptId.value == old(db.nextId) && attemptId.value !in old(db.attempts)
      && db.attempts == old(db.attempts)[attemptId.value := NewAttempt(studentId, packageId, recordId, title, categoryName, now)]
      && exists sid ::
           && SessionsOfStudent(db.sessions, studentId) == {sid}
           && db.sessions == DropKeys(old(db.sessions), SessionsOfStudent(old(db.sessions), studentId))[sid :=
                Session(studentId, attemptId.value, token, Some(recordId), categoryId, categoryName, packageId,
                        turnNumber, expiresAt, now, metadata)]
    ensures old(db.OneSessionPerStudent()) ==> db.OneSessionPerStudent()
    ensures KeepsCompleted(old(db.attempts), db.attempts)
    ensures db.records == old(db.records) && db.answers == old(db.answers)
    ensures db.packages == old(db.packages) && db.categories == old(db.categories)
  {
    if raced {
      return None;
    }
    var aid := db.nextId;
    db.attempts := db.attempts[aid := NewAttempt(studentId, packageId, recordId, title, categoryName, now)];
    db.nextId := db.nextId + 1;
    var s := Session(studentId, aid, token, Some(recordId), categoryId, categoryName, packageId, turnNumber,
                     expiresAt, now, metadata);
    var sid := ReplaceSessions(db, studentId, s);
    return Some(aid);
  }
  // ---------------------------------------------------------------------
  // The route
  // ---------------------------------------------------------------------

  /** A successful start: the attempt is open in the student's record and has the student's one session. */
  ghost predicate StartedIn(db: Database, studentId: nat, token: string, r: StartReply)
    reads db
  {
    && r.Started?
    && r.sessionToken == token
    && r.recordId in db.records && db.records[r.recordId].studentId == studentId
    && IsIncomplete(db.attempts, r.attemptId)
    && db.attempts[r.attemptId].recordId == Some(r.recordId)
    && db.attempts[r.attemptId].packageId in db.packages
    && exists sid ::
         && SessionsOfStudent(db.sessions, studentId) == {sid}
         && db.sessions[sid].attemptId == r.attemptId
         && db.sessions[sid].sessionToken == token
  }

  /**
   * The new-attempt path in record rec: without a race exactly one attempt
   * is added, with a fresh id; after a race the attempts and sessions are
   * as they were.
   */
  predicate NewAttemptMade(attempts0: map<nat, Attempt>, sessions0: map<nat, Session>,
                           packages: map<nat, Package>, categories: map<nat, Category>,
                           studentId: nat, pid: nat, cid: nat, rec: nat, later: Time, raced: bool,
                           r: StartReply, attempts: map<nat, Attempt>, sessions: map<nat, Session>)
  {
    && pid in packages && cid in categories
    && (r.Started? <==> !raced)
    && (r.Started? ==>
          && r.recordId == rec && r.attemptId !in attempts0
          && attempts == attempts0[r.attemptId := NewAttempt(studentId, pid, rec, packages[pid].title,
                                                             categories[cid].name, later)])
    && (!r.Started? ==> (r.ActiveElsewhere? || r.StartFailed?) && attempts == attempts0 && sessions == sessions0)
  }

  /**
   * The branches of a start once the checks have passed. resolved is the
   * record the resolution settled on and picked the category's attempt
   * found in it, if any (the lookup names no order, so any one of them).
   * An incomplete pick is reused and only the sessions change; a completed
   * pick is refused exactly when the record still has an incomplete
   * attempt, and otherwise opens one new record holding the new attempt;
   * with no pick the new attempt goes into the resolved record.
   */
  predicate InRecordOutcome(attempts0: map<nat, Attempt>, records0: map<nat, Record>, sessions0: map<nat, Session>,
                            nextId0: nat, packages: map<nat, Package>, categories: map<nat, Category>,
                            studentId: nat, pid: nat, cid: nat, recordIdInput: Option<nat>, later: Time,
                            raced: bool, resolved: nat, picked: Option<nat>, r: StartReply,
                            attempts: map<nat, Attempt>, records: map<nat, Record>, sessions: map<nat, Session>)
  {
    var records1 := RecordsAfterResolve(records0, nextId0, studentId, later);
    var nextId1 := NextAfterResolve(records0, nextId0, studentId);
    var candidates := CategoryAttempts(attempts0, packages, resolved, studentId, cid);
    && ResolvedId(records0, attempts0, nextId0, studentId, recordIdInput, resolved)
    && (picked.None? <==> candidates == {})
    && (picked.Some? ==> picked.value in candidates)
    && (picked.None? ==>
          && records == records1
          && NewAttemptMade(attempts0, sessions0, packages, categories, studentId, pid, cid, resolved, later,
                            raced, r, attempts, sessions))
    && (picked.Some? && picked.value in candidates && attempts0[picked.value].completedAt.None? ==>
          && records == records1 && attempts == attempts0
          && (r.Started? || r == PackageNotFound)
          && (r == PackageNotFound <==> packages[attempts0[picked.value].packageId].status != Published)
          && (r == PackageNotFound ==> sessions == sessions0)
          && (r.Started? ==> r.attemptId == picked.value && r.recordId == resolved))
    && (picked.Some? && picked.value in candidates && attempts0[picked.value].completedAt.Some?
        && IncompleteInRecord(attempts0, resolved, studentId) != {} ==>
          && r == AlreadyCompleted(resolved, cid, picked.value)
          && records == records1 && attempts == attempts0 && sessions == sessions0)
    && (picked.Some? && picked.value in candidates && attempts0[picked.value].completedAt.Some?
        && IncompleteInRecord(attempts0, resolved, studentId) == {} ==>
          && nextId1 !in records1
          && records == records1[nextId1 := Record(studentId, later, None, None)]
          && NewAttemptMade(attempts0, sessions0, packages, categories, studentId, pid, cid, nextId1, later,
                            raced, r, attempts, sessions))
  }

  /** The new-attempt path with its unique-index race. */
  method StartNewAttempt(db: Database, studentId: nat, pid: nat, cid: nat, recordId: nat, turnNumber: int,
                         prepared: seq<PreparedCategory>, testMeta: MetaInput, token: string,
                         later: Time, raced: bool)
    returns (r: StartReply)
    requires db.Valid() && cid in db.categories && pid in db.packages
    requires recordId in db.records && db.records[recordId].studentId == studentId
    modifies db
    ensures db.Valid()
    ensures db.packages == old(db.packages) && db.categories == old(db.categories)
    ensures r.Started? || r.ActiveElsewhere? || r.StartFailed?
    ensures r.Started? <==> !raced
    ensures r.Started? ==>
      && StartedIn(db, studentId, token, r)
      && r.recordId == recordId && r.attemptId == old(db.nextId)
      && db.attempts[r.attemptId] == NewAttempt(studentId, pid, recordId, db.packages[pid].title, db.categories[cid].name, later)
      && exists sid :: SessionsOfStudent(db.sessions, studentId) == {sid}
           && db.sessions[sid].expiresAt == later + db.packages[pid].durationMinutes * 60000
           && db.sessions[sid].metadata == BuildMetadata(testMeta, prepared, recordId)
    ensures NewAttemptMade(old(db.attempts), old(db.sessions), db.packages, db.categories, studentId, pid, cid,
                           recordId, later, raced, r, db.attempts, db.sessions)
    ensures r.ActiveElsewhere? ==> exists k :: k in db.sessions && db.sessions[k].studentId == studentId
                                           && db.sessions[k].attemptId == r.activeAttemptId
    ensures KeepsCompleted(old(db.attempts), db.attempts)
    ensures old(db.OneSessionPerStudent()) ==> db.OneSessionPerStudent()
    ensures db.records == old(db.records) && db.answers == old(db.answers)
  {
    var pkg := db.packages[pid];
    var expiresAt := later + pkg.durationMinutes * 60000;
    var metadata := BuildMetadata(testMeta, prepared, recordId);
    var created := CreateAttemptAndSession(db, studentId, pid, recordId, pkg.title, cid, db.categories[cid].name,
                                           turnNumber, token, expiresAt, metadata, later, raced);
    if created.None? {
      // Another start won the race; the route reports a session found
      // running now. The concurrent winner's rows are not in this store.
      var again := GetActiveSession(db, studentId, later);
      if again.Some? {
        var s := db.sessions[again.value];
        return ActiveElsewhere(s.attemptId, s.categoryName);
      }
      return StartFailed;
    }
    return Started(created.value, token, recordId);
  }

  /** Reusing an incomplete attempt: only its session is replaced. */
  method StartReusedAttempt(db: Database, studentId: nat, cid: nat, recordId: nat, existing: nat,
                            turnNumber: int, token: string, later: Time)
    returns (r: StartReply)
    requires db.Valid() && cid in db.categories
    requires recordId in db.records && db.records[recordId].studentId == studentId
    requires IsIncomplete(db.attempts, existing) && db.attempts[existing].recordId == Some(recordId)
    requires db.attempts[existing].packageId in db.packages
    modifies db
    ensures db.Valid()
    ensures db.attempts == old(db.attempts) && db.records == old(db.records) && db.answers == old(db.answers)
    ensures db.packages == old(db.packages) && db.categories == old(db.categories)
    ensures r.Started? || r == PackageNotFound
    ensures r == PackageNotFound <==> db.packages[db.attempts[existing].packageId].status != Published
    ensures r == PackageNotFound ==> db.sessions == old(db.sessions)
    ensures r.Started? ==>
      && StartedIn(db, studentId, token, r)
      && r.attemptId == existing && r.recordId == recordId
      && exists sid :: SessionsOfStudent(db.sessions, studentId) == {sid}
           && db.sessions[sid].expiresAt == later + db.packages[db.attempts[existing].packageId].durationMinutes * 60000
           && db.sessions[sid].metadata.None?
    ensures old(db.OneSessionPerStudent()) ==> db.OneSessionPerStudent()
  {
    var a := db.attempts[existing];
    if db.packages[a.packageId].status != Published {
      return PackageNotFound;
    }
    var expiresAt := later + db.packages[a.packageId].durationMinutes * 60000;
    var s := ReuseSession(studentId, existing, token, recordId, cid, db.categories[cid].name, a.packageId,
                          turnNumber, expiresAt, later);
    var sid := ReplaceSessions(db, studentId, s);
    return Started(existing, token, recordId);
  }

  /**
   * Everything after the checks: settle on the record, then reuse the
   * category's attempt in it, refuse a completed one while the record is
   * unfinished, or start a new attempt (in a new record when the record
   * is finished).
   */
  method StartInRecord(db: Database, studentId: nat, pid: nat, cid: nat, turnNumber: int,
                       recordIdInput: Option<nat>, prepared: seq<PreparedCategory>, testMeta: MetaInput,
                       token: string, later: Time, raced: bool)
    returns (r: StartReply, ghost resolved: nat, ghost picked: Option<nat>)
    requires db.Valid() && cid in db.categories && pid in db.packages && db.packages[pid].status == Published
    modifies db
    ensures db.Valid()
    ensures InRecordOutcome(old(db.attempts), old(db.records), old(db.sessions), old(db.nextId), db.packages,
                            db.categories, studentId, pid, cid, recordIdInput, later, raced, resolved, picked, r,
                            db.attempts, db.records, db.sessions)
    ensures db.answers == old(db.answers)
    ensures r.Started? || r.AlreadyCompleted? || r.PackageNotFound? || r.ActiveElsewhere? || r.StartFailed?
    ensures r.Started? ==> StartedIn(db, studentId, token, r)
    ensures r.AlreadyCompleted? ==>
      && r.categoryId == cid
      && r.attemptId in db.attempts && db.attempts[r.attemptId].completedAt.Some?
      && db.attempts[r.attemptId].recordId == Some(r.recordId)
      && IncompleteInRecord(db.attempts, r.recordId, studentId) != {}
    ensures r.ActiveElsewhere? ==> exists k :: k in db.sessions && db.sessions[k].studentId == studentId
                                           && db.sessions[k].attemptId == r.activeAttemptId
    ensures KeepsCompleted(old(db.attempts), db.attempts)
    ensures old(db.OneSessionPerStudent()) ==> db.OneSessionPerStudent()
    ensures db.packages == old(db.packages) && db.categories == old(db.categories)
  {
    var recordId := ResolveRecord(db, studentId, recordIdInput, later);
    resolved := recordId;
    var candidates := CategoryAttempts(db.attempts, db.packages, recordId, studentId, cid);
    picked := None;
    if candidates != {} {
      var existing :| existing in candidates;
      picked := Some(existing);
      if db.attempts[existing].completedAt.None? {
        r := StartReusedAttempt(db, studentId, cid, recordId, existing, turnNumber, token, later);
        return;
      }
      if IncompleteInRecord(db.attempts, recordId, studentId) != {} {
        r := AlreadyCompleted(recordId, cid, existing);
        return;
      }
      // The record is finished: a retake opens a new record.
      recordId := NewRecord(db, studentId, later);
    }
    r := StartNewAttempt(db, studentId, pid, cid, recordId, turnNumber, prepared, testMeta, token, later, raced);
  }

  /**
   * packageId, categoryId, turnNumber, recordIdInput, prepared and testMeta
   * come from the body (None when absent or empty; turnNumber 1 when
   * absent or 0), token is the freshly generated session token and raced
   * whether the new-attempt transaction hits the unique index.
   */
  method StartTest(db: Database, studentId: nat, packageId: Option<nat>, categoryId: Option<nat>,
                   turnNumber: int, recordIdInput: Option<nat>, prepared: seq<PreparedCategory>,
                   testMeta: MetaInput, token: string, now: Time, later: Time, raced: bool)
    returns (r: StartReply, ghost inRecord: bool, ghost resolved: nat, ghost picked: Option<nat>,
             ghost attempts1: map<nat, Attempt>, ghost sessions1: map<nat, Session>,
             ghost answers1: map<(nat, nat), StoredAnswer>)
    requires db.Valid() && now <= later
    modifies db
    ensures db.Valid()
    ensures r == PackageIdRequired <==> packageId.None?
    ensures r == CategoryIdRequired <==> packageId.Some? && categoryId.None?
    ensures packageId.None? || categoryId.None? ==>
      db.attempts == old(db.attempts) && db.sessions == old(db.sessions) && db.records == old(db.records)
    ensures packageId.Some? && categoryId.Some?
            && LiveSessionsOf(old(db.attempts), old(db.sessions), studentId, now) != {}
            && (forall k :: k in LiveSessionsOf(old(db.attempts), old(db.sessions), studentId, now) ==>
                  old(db.sessions)[k].expiresAt >= later)
            ==> r.ActiveElsewhere? && db.sessions == old(db.sessions) && db.attempts == old(db.attempts)
    ensures r.ActiveElsewhere? ==> exists k :: k in db.sessions && db.sessions[k].studentId == studentId
                                           && db.sessions[k].attemptId == r.activeAttemptId
    ensures r == CategoryNotFound ==> categoryId.Some? && categoryId.value !in db.categories
    // The start reaches the record step once the checks pass; a running
    // session that expired by later does not stop it.
    ensures packageId.Some? && categoryId.Some? && categoryId.value in db.categories
            && packageId.value in db.packages && db.packages[packageId.value].status == Published
            && (LiveSessionsOf(old(db.attempts), old(db.sessions), studentId, now) == {}
                || (old(db.OneSessionPerStudent())
                    && exists k :: k in LiveSessionsOf(old(db.attempts), old(db.sessions), studentId, now)
                                   && old(db.sessions)[k].expiresAt < later))
            ==> inRecord
    ensures inRecord ==>
      && packageId.Some? && categoryId.Some? && categoryId.value in db.categories
      && packageId.value in db.packages && db.packages[packageId.value].status == Published
    // The state the record step starts from: the old one, or the one left
    // by auto-submitting the expired session.
    ensures inRecord ==>
      || (&& LiveSessionsOf(old(db.attempts), old(db.sessions), studentId, now) == {}
          && attempts1 == old(db.attempts) && sessions1 == old(db.sessions) && answers1 == old(db.answers))
      || exists k :: ClosedExpired(old(db.attempts), old(db.sessions), old(db.answers), old(db.packages),
                                   studentId, now, later, k, attempts1, sessions1, answers1)
    ensures inRecord ==>
      && InRecordOutcome(attempts1, old(db.records), sessions1, old(db.nextId), db.packages, db.categories,
                         studentId, packageId.value, categoryId.value, recordIdInput, later, raced,
                         resolved, picked, r, db.attempts, db.records, db.sessions)
      && db.answers == answers1
    ensures !inRecord ==> db.records == old(db.records)
    ensures r.Started? ==> inRecord && StartedIn(db, studentId, token, r)
    ensures r.AlreadyCompleted? ==>
      && r.attemptId in db.attempts && db.attempts[r.attemptId].completedAt.Some?
      && IncompleteInRecord(db.attempts, r.recordId, studentId) != {}
    ensures KeepsCompleted(old(db.attempts), db.attempts)
    ensures old(db.OneSessionPerStudent()) ==> db.OneSessionPerStudent()
    ensures db.packages == old(db.packages) && db.categories == old(db.categories)
  {
    inRecord, resolved, picked := false, 0, None;
    attempts1, sessions1, answers1 := db.attempts, db.sessions, db.answers;
    if packageId.None? {
      r := PackageIdRequired;
      return;
    }
    if categoryId.None? {
      r := CategoryIdRequired;
      return;
    }
    var pid, cid := packageId.value, categoryId.value;
    var blocked := CheckRunning(db, studentId, now, later);
    attempts1, sessions1, answers1 := db.attempts, db.sessions, db.answers;
    if blocked.Some? {
      r := ActiveElsewhere(blocked.value.0, blocked.value.1);
      return;
    }
    if cid !in db.categories {
      r := CategoryNotFound;
      return;
    }
    if pid !in db.packages || db.packages[pid].status != Published {
      r := PackageNotFound;
      return;
    }
    inRecord := true;
    r, resolved, picked := StartInRecord(db, studentId, pid, cid, turnNumber, recordIdInput, prepared, testMeta,
                                         token, later, raced);
  }
}
