/**
 * autoSubmitExpiredSessions of src/utils/auto-submit.js: when a student
 * comes back, every session of theirs that expired before now on an
 * attempt still open is finalised in a transaction of its own (grade,
 * completedAt = the session's expiry, snapshots of package title and
 * category name, clean-up, record average). A transaction that fails is
 * rolled back and the loop goes on; which transactions fail is the
 * parameter failing, since store errors are outside the model.
 */
module AutoSubmit {
  import opened Common
  import opened Grading
  import opened Db
  import opened AttemptGrading
  import opened RecordScoring
  import opened SessionCleanup

  /** The sessions picked: the student's, expired strictly before now, on an existing incomplete attempt. */
  function ExpiredOf(attempts: map<nat, Attempt>, sessions: map<nat, Session>, studentId: nat, now: Time): set<nat>
  {
    set k | k in sessions && sessions[k].studentId == studentId && IsExpiredUnsubmitted(attempts, sessions[k], now)
  }

  /** JavaScript's s || null on a string. */
  function NonEmpty(s: string): (r: Option<string>)
    ensures r.None? <==> s == ""
    ensures r.Some? ==> r.value == s
  {
    if s == "" then None else Some(s)
  }

  /** session.attempt.package?.title || null. */
  function TitleOf(packages: map<nat, Package>, a: Attempt): Option<string>
  {
    if a.packageId in packages then NonEmpty(packages[a.packageId].title) else None
  }

  /** The attempt row as one finalising transaction writes it. */
  function Finalized(a: Attempt, s: Session, score: int, title: Option<string>): Attempt
  {
    a.(completedAt := Some(s.expiresAt), totalScore := Some(score), packageTitle := title,
       categoryName := NonEmpty(s.categoryName))
  }

  /** The records after the session's record (if any, and if it exists) has its average recomputed. */
  ghost function RecordsAfter(records: map<nat, Record>, attempts: map<nat, Attempt>, recordId: Option<nat>): map<nat, Record>
  {
    if recordId.Some? && recordId.value in records then
      records[recordId.value := records[recordId.value].(averageScore := Some(RecordAverage(attempts, recordId.value)))]
    else records
  }

  /**
   * One finalising transaction for a picked session s. It fails only when
   * the attempt row is gone (the update of a missing row), and then writes
   * nothing; a missing record is caught inside and only skips the average.
   */
  method FinalizeSession(db: Database, s: Session, title: Option<string>) returns (ok: bool)
    requires db.Valid()
    modifies db
    ensures db.Valid()
    ensures ok <==> s.attemptId in old(db.attempts)
    ensures !ok ==>
      db.attempts == old(db.attempts) && db.answers == old(db.answers) && db.sessions == old(db.sessions) && db.records == old(db.records)
    ensures ok ==> db.attempts == old(db.attempts)[s.attemptId := Finalized(old(db.attempts)[s.attemptId], s,
      StoreGrade(old(db.attempts), old(db.packages), old(db.answers), s.attemptId).totalScore, title)]
    ensures ok ==> db.answers == DropAnswersOf(old(db.answers), {s.attemptId})
    ensures ok ==> db.sessions == DropKeys(old(db.sessions), SessionsOfAttempts(old(db.sessions), {s.attemptId}))
    ensures ok ==> db.records == RecordsAfter(old(db.records), db.attempts, s.recordId)
    ensures old(db.OneSessionPerStudent()) ==> db.OneSessionPerStudent()
    ensures db.packages == old(db.packages) && db.categories == old(db.categories) && db.nextId == old(db.nextId)
  {
    var attemptId := s.attemptId;
    var grade := GradeAttempt(db, attemptId);
    if attemptId !in db.attempts {
      return false;
    }
    db.attempts := db.attempts[attemptId := Finalized(db.attempts[attemptId], s, grade.totalScore, title)];
    CleanupAfterSubmit(db, attemptId);
    if s.recordId.Some? {
      var _ := UpdateRecordAverageScore(db, s.recordId.value);
    }
    return true;
  }

  /** No two of the given sessions are bound to the same attempt. */
  predicate DistinctAttempts(sessions: map<nat, Session>, ids: set<nat>)
  {
    forall x, y :: x in ids && y in ids && x in sessions && y in sessions && x != y ==>
      sessions[x].attemptId != sessions[y].attemptId
  }

  /** Under the unique index on the student of a session, at most one session is ever picked. */
  lemma OneSessionPicked(attempts: map<nat, Attempt>, sessions: map<nat, Session>, studentId: nat, now: Time)
    requires OnePerStudent(sessions)
    ensures |ExpiredOf(attempts, sessions, studentId, now)| <= 1
    ensures DistinctAttempts(sessions, ExpiredOf(attempts, sessions, studentId, now))
  {
    var e := ExpiredOf(attempts, sessions, studentId, now);
    if |e| > 1 {
      var x :| x in e;
      OtherMember(e, x);
      assert false;
    }
  }

  /** A set with more than one element has one besides x. */
  lemma OtherMember(s: set<nat>, x: nat)
    ensures x in s && |s| > 1 ==> exists y :: y in s && y != x
  {
    if x in s && |s| > 1 {
      assert |s - {x}| == |s| - 1;
      var y :| y in s - {x};
    }
  }

  /** The records that the given sessions point at. */
  function RecordIdsOf(sessions: map<nat, Session>, ids: set<nat>): set<nat>
  {
    set k | k in ids && k in sessions && sessions[k].recordId.Some? :: sessions[k].recordId.value
  }

  // -----------------------------------------------------------------------
  // What the loop has done after finalising the sessions in done - failing.
  // A0, N0, S0 and R0 are the attempts, answers, sessions and records the
  // loop started from; finalized lists the attempts finalised so far.
  // -----------------------------------------------------------------------

  /** submittedCount and finalized account for exactly the successful transactions. */
  ghost predicate Tally(S0: map<nat, Session>, ok: set<nat>, finalized: seq<nat>)
  {
    |finalized| == |ok| && (set i | 0 <= i < |finalized| :: finalized[i]) == AttemptsOfSessions(S0, ok)
  }

  /** Finalised attempts are completed; all other attempts are as they were. */
  ghost predicate AttemptsOk(attempts: map<nat, Attempt>, A0: map<nat, Attempt>, finalized: seq<nat>)
  {
    && attempts.Keys == A0.Keys
    && (forall a :: a in finalized ==> a in attempts && attempts[a].completedAt.Some?)
    && (forall a :: a in A0 && a !in finalized ==> attempts[a] == A0[a])
  }

  /** Finalised attempts have no temporary answers left; no other answer was touched. */
  ghost predicate AnswersOk(answers: map<(nat, nat), StoredAnswer>, N0: map<(nat, nat), StoredAnswer>, finalized: seq<nat>)
  {
    && (forall k :: k in answers ==> k in N0 && answers[k] == N0[k] && k.0 !in finalized)
    && (forall k :: k in N0 && k.0 !in finalized ==> k in answers)
  }

  /** Finalised attempts have no session left; no other session was touched. */
  ghost predicate SessionsOk(sessions: map<nat, Session>, S0: map<nat, Session>, finalized: seq<nat>)
  {
    && (forall k :: k in sessions ==> k in S0 && sessions[k] == S0[k] && S0[k].attemptId !in finalized)
    && (forall k :: k in S0 && S0[k].attemptId !in finalized ==> k in sessions)
  }

  /** Only the averages of the records the finalised sessions point at may have moved. */
  ghost predicate RecordsOk(records: map<nat, Record>, R0: map<nat, Record>, S0: map<nat, Session>, ok: set<nat>)
  {
    && records.Keys == R0.Keys
    && (forall r :: r in R0 ==> records[r].(averageScore := None) == R0[r].(averageScore := None))
    && (forall r :: r in R0 && r !in RecordIdsOf(S0, ok) ==> records[r] == R0[r])
  }

  /**
   * When no two picked sessions share an attempt, each finalised attempt
   * holds exactly what its transaction wrote, graded on the answers the
   * loop started from.
   */
  ghost predicate GradedOk(attempts: map<nat, Attempt>, A0: map<nat, Attempt>, N0: map<(nat, nat), StoredAnswer>,
                           S0: map<nat, Session>, packages: map<nat, Package>, picked: set<nat>, ok: set<nat>)
    requires ok <= picked
    requires forall k :: k in picked ==> k in S0 && S0[k].attemptId in A0 && S0[k].attemptId in attempts
  {
    DistinctAttempts(S0, picked) ==>
      forall k :: k in ok ==>
        attempts[S0[k].attemptId] == Finalized(A0[S0[k].attemptId], S0[k],
          StoreGrade(A0, packages, N0, S0[k].attemptId).totalScore, TitleOf(packages, A0[S0[k].attemptId]))
  }

  lemma TallyStep(S0: map<nat, Session>, ok: set<nat>, finalized: seq<nat>, k: nat)
    requires Tally(S0, ok, finalized) && k !in ok && k in S0
    ensures Tally(S0, ok + {k}, finalized + [S0[k].attemptId])
  {
    var f' := finalized + [S0[k].attemptId];
    assert (set i | 0 <= i < |f'| :: f'[i]) == (set i | 0 <= i < |finalized| :: finalized[i]) + {S0[k].attemptId} by {
      forall i | 0 <= i < |finalized| ensures finalized[i] in (set i | 0 <= i < |f'| :: f'[i]) {
        assert f'[i] == finalized[i];
      }
      assert f'[|finalized|] == S0[k].attemptId;
    }
    assert AttemptsOfSessions(S0, ok + {k}) == AttemptsOfSessions(S0, ok) + {S0[k].attemptId};
  }

  lemma AttemptsStep(attempts: map<nat, Attempt>, A0: map<nat, Attempt>, finalized: seq<nat>, a: nat, row: Attempt)
    requires AttemptsOk(attempts, A0, finalized) && a in attempts && row.completedAt.Some?
    ensures AttemptsOk(attempts[a := row], A0, finalized + [a])
  {
  }

  lemma AnswersStep(answers: map<(nat, nat), StoredAnswer>, N0: map<(nat, nat), StoredAnswer>, finalized: seq<nat>, a: nat)
    requires AnswersOk(answers, N0, finalized)
    ensures AnswersOk(DropAnswersOf(answers, {a}), N0, finalized + [a])
  {
  }

  lemma SessionsStep(sessions: map<nat, Session>, S0: map<nat, Session>, finalized: seq<nat>, a: nat)
    requires SessionsOk(sessions, S0, finalized)
    ensures SessionsOk(DropKeys(sessions, SessionsOfAttempts(sessions, {a})), S0, finalized + [a])
  {
  }

  lemma RecordsStep(records: map<nat, Record>, R0: map<nat, Record>, S0: map<nat, Session>, ok: set<nat>,
                    attempts: map<nat, Attempt>, k: nat)
    requires RecordsOk(records, R0, S0, ok) && k in S0
    ensures RecordsOk(RecordsAfter(records, attempts, S0[k].recordId), R0, S0, ok + {k})
  {
    assert RecordIdsOf(S0, ok) <= RecordIdsOf(S0, ok + {k});
    assert S0[k].recordId.Some? ==> S0[k].recordId.value in RecordIdsOf(S0, ok + {k});
  }

  lemma GradedStep(attempts: map<nat, Attempt>, A0: map<nat, Attempt>, N0: map<(nat, nat), StoredAnswer>,
                   answers: map<(nat, nat), StoredAnswer>, S0: map<nat, Session>, packages: map<nat, Package>,
                   picked: set<nat>, ok: set<nat>, finalized: seq<nat>, k: nat)
    requires ok <= picked && k in picked && k !in ok
    requires forall j :: j in picked ==> j in S0 && S0[j].attemptId in A0 && S0[j].attemptId in attempts
    requires Tally(S0, ok, finalized) && AttemptsOk(attempts, A0, finalized) && AnswersOk(answers, N0, finalized)
    requires GradedOk(attempts, A0, N0, S0, packages, picked, ok)
    ensures var a := S0[k].attemptId;
      var attempts' := attempts[a := Finalized(attempts[a], S0[k], StoreGrade(attempts, packages, answers, a).totalScore,
        TitleOf(packages, A0[a]))];
      GradedOk(attempts', A0, N0, S0, packages, picked, ok + {k})
  {
    var a := S0[k].attemptId;
    if DistinctAttempts(S0, picked) {
      assert a !in AttemptsOfSessions(S0, ok);
      assert a !in finalized;
      StoreGradeLocal(attempts, A0, packages, answers, N0, a);
    }
  }

  /**
   * The state after finalising the sessions in ok out of the picked ones,
   * starting from attempts A0, answers N0, sessions S0 and records R0.
   */
  ghost predicate Outcome(attempts: map<nat, Attempt>, answers: map<(nat, nat), StoredAnswer>,
                          sessions: map<nat, Session>, records: map<nat, Record>,
                          A0: map<nat, Attempt>, N0: map<(nat, nat), StoredAnswer>, S0: map<nat, Session>,
                          R0: map<nat, Record>, packages: map<nat, Package>,
                          picked: set<nat>, ok: set<nat>, finalized: seq<nat>)
  {
    && ok <= picked
    && (forall j :: j in picked ==> j in S0 && S0[j].attemptId in A0)
    && Tally(S0, ok, finalized)
    && AttemptsOk(attempts, A0, finalized)
    && AnswersOk(answers, N0, finalized)
    && SessionsOk(sessions, S0, finalized)
    && RecordsOk(records, R0, S0, ok)
    && GradedOk(attempts, A0, N0, S0, packages, picked, ok)
  }

  lemma OutcomeStart(A0: map<nat, Attempt>, N0: map<(nat, nat), StoredAnswer>, S0: map<nat, Session>,
                     R0: map<nat, Record>, packages: map<nat, Package>, picked: set<nat>)
    requires forall j :: j in picked ==> j in S0 && S0[j].attemptId in A0
    ensures Outcome(A0, N0, S0, R0, A0, N0, S0, R0, packages, picked, {}, [])
  {
    ElementsOfEmpty([]);
    assert AttemptsOfSessions(S0, {}) == {};
  }

  /** No attempt has been finalised yet. */
  lemma ElementsOfEmpty(finalized: seq<nat>)
    ensures |finalized| == 0 ==> (set i | 0 <= i < |finalized| :: finalized[i]) == {}
  {
  }

  /** One more successful transaction, for the picked session k. */
  lemma OutcomeStep(attempts: map<nat, Attempt>, answers: map<(nat, nat), StoredAnswer>,
                    sessions: map<nat, Session>, records: map<nat, Record>,
                    A0: map<nat, Attempt>, N0: map<(nat, nat), StoredAnswer>, S0: map<nat, Session>,
                    R0: map<nat, Record>, packages: map<nat, Package>,
                    picked: set<nat>, ok: set<nat>, finalized: seq<nat>, k: nat)
    requires Outcome(attempts, answers, sessions, records, A0, N0, S0, R0, packages, picked, ok, finalized)
    requires k in picked && k !in ok
    ensures var a := S0[k].attemptId;
      var attempts' := attempts[a := Finalized(attempts[a], S0[k], StoreGrade(attempts, packages, answers, a).totalScore,
        TitleOf(packages, A0[a]))];
      Outcome(attempts', DropAnswersOf(answers, {a}), DropKeys(sessions, SessionsOfAttempts(sessions, {a})),
        RecordsAfter(records, attempts', S0[k].recordId), A0, N0, S0, R0, packages, picked, ok + {k}, finalized + [a])
  {
    var a := S0[k].attemptId;
    var attempts' := attempts[a := Finalized(attempts[a], S0[k], StoreGrade(attempts, packages, answers, a).totalScore,
      TitleOf(packages, A0[a]))];
    GradedStep(attempts, A0, N0, answers, S0, packages, picked, ok, finalized, k);
    TallyStep(S0, ok, finalized, k);
    AttemptsStep(attempts, A0, finalized, a, attempts'[a]);
    AnswersStep(answers, N0, finalized, a);
    SessionsStep(sessions, S0, finalized, a);
    RecordsStep(records, R0, S0, ok, attempts', k);
  }

  /** Bookkeeping of the loop: the successful sessions are the processed ones outside failing. */
  lemma ProcessedStep(picked: set<nat>, remaining: set<nat>, failing: set<nat>, ok: set<nat>, k: nat)
    requires remaining <= picked && ok == (picked - remaining) - failing && k in remaining
    ensures k !in ok
    ensures k !in failing ==> ok + {k} == (picked - (remaining - {k})) - failing
    ensures k in failing ==> ok == (picked - (remaining - {k})) - failing
  {
  }

  lemma ProcessedAll(picked: set<nat>, failing: set<nat>, ok: set<nat>)
    requires ok == (picked - {}) - failing
    ensures ok == picked - failing
  {
    assert picked - {} == picked;
  }

  /** Each existing record the successful sessions point at holds the average of the attempts as they now are. */
  ghost predicate AveragesOk(records: map<nat, Record>, attempts: map<nat, Attempt>, S0: map<nat, Session>, ok: set<nat>)
  {
    forall rid :: rid in RecordIdsOf(S0, ok) && rid in records ==>
      records[rid].averageScore == Some(RecordAverage(attempts, rid))
  }

  /** With at most one session picked, none was finalised before the one at hand. */
  lemma NoneBefore(picked: set<nat>, ok: set<nat>, k: nat)
    requires |picked| <= 1 && ok <= picked && k in picked && k !in ok
    ensures ok == {}
  {
    assert |picked - {k}| == |picked| - 1;
  }

  /**
   * One iteration of the loop for the picked session k: its transaction,
   * which is rolled back exactly when fails.
   */
  method SubmitSession(db: Database, A0: map<nat, Attempt>, ghost N0: map<(nat, nat), StoredAnswer>, S0: map<nat, Session>,
                       ghost R0: map<nat, Record>, picked: set<nat>, ghost ok: set<nat>, finalized: seq<nat>, k: nat,
                       fails: bool)
    returns (finalized': seq<nat>, ghost ok': set<nat>)
    requires db.Valid()
    requires Outcome(db.attempts, db.answers, db.sessions, db.records, A0, N0, S0, R0, db.packages, picked, ok, finalized)
    requires |picked| <= 1 ==> AveragesOk(db.records, db.attempts, S0, ok)
    requires k in picked && k !in ok
    modifies db
    ensures db.Valid()
    ensures ok' == if fails then ok else ok + {k}
    ensures fails ==> finalized' == finalized
    ensures !fails ==> |finalized'| == |finalized| + 1
    ensures Outcome(db.attempts, db.answers, db.sessions, db.records, A0, N0, S0, R0, db.packages, picked, ok', finalized')
    ensures |picked| <= 1 ==> AveragesOk(db.records, db.attempts, S0, ok')
    ensures old(db.OneSessionPerStudent()) ==> db.OneSessionPerStudent()
    ensures db.packages == old(db.packages) && db.categories == old(db.categories) && db.nextId == old(db.nextId)
  {
    if fails {
      return finalized, ok;
    }
    var s := S0[k];
    var a := s.attemptId;
    OutcomeStep(db.attempts, db.answers, db.sessions, db.records, A0, N0, S0, R0, db.packages, picked, ok, finalized, k);
    var success := FinalizeSession(db, s, TitleOf(db.packages, A0[a]));
    finalized', ok' := finalized + [a], ok + {k};
    if |picked| <= 1 {
      NoneBefore(picked, ok, k);
    }
  }

  /**
   * The loop over the picked sessions, each in a transaction of its own,
   * starting from attempts A0, answers N0, sessions S0 and records R0.
   */
  method SubmitAll(db: Database, A0: map<nat, Attempt>, ghost N0: map<(nat, nat), StoredAnswer>, S0: map<nat, Session>,
                   ghost R0: map<nat, Record>, picked: set<nat>, failing: set<nat>)
    returns (submittedCount: nat, finalized: seq<nat>)
    requires db.Valid()
    requires Outcome(db.attempts, db.answers, db.sessions, db.records, A0, N0, S0, R0, db.packages, picked, {}, [])
    modifies db
    ensures db.Valid()
    ensures submittedCount == |finalized|
    ensures Outcome(db.attempts, db.answers, db.sessions, db.records, A0, N0, S0, R0, db.packages, picked,
                    picked - failing, finalized)
    ensures |picked| <= 1 ==> AveragesOk(db.records, db.attempts, S0, picked - failing)
    ensures old(db.OneSessionPerStudent()) ==> db.OneSessionPerStudent()
    ensures db.packages == old(db.packages) && db.categories == old(db.categories) && db.nextId == old(db.nextId)
  {
    submittedCount, finalized := 0, [];
    var remaining := picked;
    ghost var ok: set<nat> := {};
    while remaining != {}
      invariant remaining <= picked && ok == (picked - remaining) - failing
      invariant db.Valid()
      invariant submittedCount == |finalized|
      invariant Outcome(db.attempts, db.answers, db.sessions, db.records, A0, N0, S0, R0, db.packages, picked, ok, finalized)
      invariant old(db.OneSessionPerStudent()) ==> db.OneSessionPerStudent()
      invariant |picked| <= 1 ==> AveragesOk(db.records, db.attempts, S0, ok)
      invariant db.packages == old(db.packages) && db.categories == old(db.categories) && db.nextId == old(db.nextId)
      decreases |remaining|
    {
      var k :| k in remaining;
      ProcessedStep(picked, remaining, failing, ok, k);
      finalized, ok := SubmitSession(db, A0, N0, S0, R0, picked, ok, finalized, k, k in failing);
      if k !in failing {
        submittedCount := submittedCount + 1;
      }
      remaining := remaining - {k};
    }
    ProcessedAll(picked, failing, ok);
  }

  /**
   * autoSubmitExpiredSessions. Every picked session outside failing has
   * its attempt finalised; failing sessions leave everything as it was;
   * nothing outside the picked attempts, their answers, their sessions and
   * their records' averages changes. submittedCount is the number of
   * successful transactions and finalized lists their attempts.
   */
  method AutoSubmitExpiredSessions(db: Database, studentId: nat, now: Time, failing: set<nat>)
    returns (submittedCount: nat, finalized: seq<nat>)
    requires db.Valid()
    modifies db
    ensures db.Valid()
    ensures submittedCount == |finalized|
    ensures ExpiredOf(old(db.attempts), old(db.sessions), studentId, now) == {} ==>
      && submittedCount == 0 && db.attempts == old(db.attempts) && db.answers == old(db.answers)
      && db.sessions == old(db.sessions) && db.records == old(db.records)
    ensures Outcome(db.attempts, db.answers, db.sessions, db.records,
      old(db.attempts), old(db.answers), old(db.sessions), old(db.records), old(db.packages),
      ExpiredOf(old(db.attempts), old(db.sessions), studentId, now),
      ExpiredOf(old(db.attempts), old(db.sessions), studentId, now) - failing, finalized)
    ensures old(db.OneSessionPerStudent()) ==>
      AveragesOk(db.records, db.attempts, old(db.sessions), ExpiredOf(old(db.attempts), old(db.sessions), studentId, now) - failing)
    ensures old(db.OneSessionPerStudent()) ==> db.OneSessionPerStudent()
    ensures db.packages == old(db.packages) && db.categories == old(db.categories) && db.nextId == old(db.nextId)
  {
    var snapAttempts, snap := db.attempts, db.sessions;
    ghost var answers0, records0 := db.answers, db.records;
    var picked := ExpiredOf(db.attempts, db.sessions, studentId, now);
    assert forall j :: j in picked ==> j in snap && snap[j].attemptId in snapAttempts;
    OutcomeStart(snapAttempts, answers0, snap, records0, db.packages, picked);
    if picked == {} {
      assert picked - failing == {};
      return 0, [];
    }
    if OnePerStudent(snap) {
      OneSessionPicked(snapAttempts, snap, studentId, now);
    }
    submittedCount, finalized := SubmitAll(db, snapAttempts, answers0, snap, records0, picked, failing);
  }
}
