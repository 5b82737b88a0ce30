/**
 * The test tables of the exam backend as an in-memory store: attempts,
 * active test sessions, temporary answers and test records, beside the
 * question packages and categories they refer to. Every table is a map
 * from row id to row; a temporary answer is keyed by (attemptId, itemId),
 * the unique pair the database enforces.
 */
module Db {
  import opened Common
  import opened Grading

  /** Milliseconds since the epoch. */
  type Time = int

  datatype PackageStatus = Published | Draft

  /** A question package with its items, already flattened page by page. */
  datatype Package = Package(categoryId: nat, status: PackageStatus, title: string, durationMinutes: int, items: seq<Item>)

  datatype Category = Category(name: string)

  datatype Attempt = Attempt(
    studentId: nat,
    packageId: nat,
    recordId: Option<nat>,
    startedAt: Time,
    completedAt: Option<Time>,
    totalScore: Option<int>,
    packageTitle: Option<string>,
    categoryName: Option<string>)

  /** One category of a prepared test, as the client echoes it back to start. */
  datatype PreparedCategory = PreparedCategory(categoryId: nat, categoryName: string)

  datatype TestMode = SingleCategory | MultipleCategories

  /**
   * Session metadata: the client's own testMeta object, or one rebuilt
   * from the prepared categories.
   */
  datatype TestMeta =
    | ClientMeta(raw: string)
    | BuiltMeta(categoryIds: seq<nat>, completedCategoryIds: seq<nat>, recordId: nat,
                prepared: seq<PreparedCategory>, mode: TestMode)

  datatype Session = Session(
    studentId: nat,
    attemptId: nat,
    sessionToken: string,
    recordId: Option<nat>,
    categoryId: nat,
    categoryName: string,
    packageId: nat,
    turnNumber: int,
    expiresAt: Time,
    lastActivity: Time,
    metadata: Option<TestMeta>)

  datatype Record = Record(studentId: nat, createdAt: Time, averageScore: Option<real>, feedback: Option<string>)

  datatype StoredAnswer = StoredAnswer(answer: TempAnswer, createdAt: Time)

  class Database {
    var attempts: map<nat, Attempt>
    var sessions: map<nat, Session>
    var answers: map<(nat, nat), StoredAnswer>
    var records: map<nat, Record>
    var packages: map<nat, Package>
    var categories: map<nat, Category>
    /** The next id the store hands out; every id in use is below it. */
    var nextId: nat

    ghost predicate Valid()
      reads this
    {
      (forall k :: k in attempts ==> k < nextId)
      && (forall k :: k in sessions ==> k < nextId)
      && (forall k :: k in records ==> k < nextId)
      && (forall k :: k in answers ==> answers[k].answer.itemId == k.1)
      && (forall p :: p in packages ==> DistinctItemIds(packages[p].items))
    }

    /** Writes the four row tables back at once; packages, categories and the id counter stay. */
    method WriteRows(newAttempts: map<nat, Attempt>, newSessions: map<nat, Session>,
                     newAnswers: map<(nat, nat), StoredAnswer>, newRecords: map<nat, Record>)
      requires Valid()
      requires forall k :: k in newAttempts ==> k < nextId
      requires forall k :: k in newSessions ==> k < nextId
      requires forall k :: k in newRecords ==> k < nextId
      requires forall k :: k in newAnswers ==> newAnswers[k].answer.itemId == k.1
      modifies this
      ensures Valid()
      ensures attempts == newAttempts && sessions == newSessions && answers == newAnswers && records == newRecords
      ensures packages == old(packages) && categories == old(categories) && nextId == old(nextId)
    {
      attempts, sessions, answers, records := newAttempts, newSessions, newAnswers, newRecords;
    }

    /** The unique index on ActiveTestSession.studentId: one session per student. */
    ghost predicate OneSessionPerStudent()
      reads this
    {
      OnePerStudent(sessions)
    }

    constructor (packages: map<nat, Package>, categories: map<nat, Category>)
      requires forall p :: p in packages ==> DistinctItemIds(packages[p].items)
      ensures Valid() && OneSessionPerStudent()
      ensures this.packages == packages && this.categories == categories
      ensures attempts == map[] && sessions == map[] && answers == map[] && records == map[]
    {
      this.packages := packages;
      this.categories := categories;
      attempts := map[];
      sessions := map[];
      answers := map[];
      records := map[];
      nextId := 0;
    }
  }

  /** No two session rows belong to the same student. */
  predicate OnePerStudent(sessions: map<nat, Session>)
  {
    forall a, b :: a in sessions && b in sessions && a != b ==> sessions[a].studentId != sessions[b].studentId
  }

  // -----------------------------------------------------------------------
  // Row selections shared by the operations
  // -----------------------------------------------------------------------

  function SessionsOfStudent(sessions: map<nat, Session>, studentId: nat): set<nat>
  {
    set k | k in sessions && sessions[k].studentId == studentId
  }

  function SessionsOfAttempts(sessions: map<nat, Session>, attemptIds: set<nat>): set<nat>
  {
    set k | k in sessions && sessions[k].attemptId in attemptIds
  }

  /** The attempts the given sessions are bound to. */
  function AttemptsOfSessions(sessions: map<nat, Session>, ids: set<nat>): set<nat>
  {
    set k | k in ids && k in sessions :: sessions[k].attemptId
  }

  /** deleteMany of the temporary answers whose attemptId is in attemptIds. */
  function DropAnswersOf(answers: map<(nat, nat), StoredAnswer>, attemptIds: set<nat>): (r: map<(nat, nat), StoredAnswer>)
    ensures forall k :: k in r <==> k in answers && k.0 !in attemptIds
    ensures forall k :: k in r ==> r[k] == answers[k]
  {
    map k | k in answers && k.0 !in attemptIds :: answers[k]
  }

  /** deleteMany of the rows whose id is in ids. */
  function DropKeys<K(!new), V>(m: map<K, V>, ids: set<K>): (r: map<K, V>)
    ensures forall k :: k in r <==> k in m && k !in ids
    ensures forall k :: k in r ==> r[k] == m[k]
  {
    map k | k in m && k !in ids :: m[k]
  }

  predicate IsIncomplete(attempts: map<nat, Attempt>, attemptId: nat)
  {
    attemptId in attempts && attempts[attemptId].completedAt.None?
  }

  /** A session still running: not yet expired and bound to an existing, incomplete attempt. */
  predicate IsLive(attempts: map<nat, Attempt>, s: Session, now: Time)
  {
    s.expiresAt > now && IsIncomplete(attempts, s.attemptId)
  }

  /** A session eligible for auto-submission: expired strictly before now, attempt incomplete. */
  predicate IsExpiredUnsubmitted(attempts: map<nat, Attempt>, s: Session, now: Time)
  {
    s.expiresAt < now && IsIncomplete(attempts, s.attemptId)
  }

  /** A session expiring exactly now is neither live nor eligible for auto-submission. */
  lemma ExpiryInstantGap(attempts: map<nat, Attempt>, s: Session, now: Time)
    requires s.expiresAt == now
    ensures !IsLive(attempts, s, now) && !IsExpiredUnsubmitted(attempts, s, now)
  {
  }

  /** The stored answers of one attempt, by item id. */
  function AnswerLookup(answers: map<(nat, nat), StoredAnswer>, attemptId: nat): map<nat, TempAnswer>
  {
    map k | k in answers && k.0 == attemptId :: k.1 := answers[k].answer
  }

  /**
   * What gradeAttempt computes for an attempt from the current tables:
   * zeros for a missing attempt or package, otherwise the grade of the
   * package's items against the attempt's stored answers.
   */
  function StoreGrade(attempts: map<nat, Attempt>, packages: map<nat, Package>,
                      answers: map<(nat, nat), StoredAnswer>, attemptId: nat): GradeResult
  {
    if attemptId !in attempts || attempts[attemptId].packageId !in packages then GradeResult(0, 0, 0)
    else LookupGrade(packages[attempts[attemptId].packageId].items, AnswerLookup(answers, attemptId))
  }

  /** The completed attempts of a record, in no particular order. */
  function CompletedOfRecord(attempts: map<nat, Attempt>, recordId: nat): set<nat>
  {
    set k | k in attempts && attempts[k].recordId == Some(recordId) && attempts[k].completedAt.Some?
  }

  /** The student's sessions that are still running at now. */
  function LiveSessionsOf(attempts: map<nat, Attempt>, sessions: map<nat, Session>, studentId: nat, now: Time): set<nat>
  {
    set k | k in sessions && sessions[k].studentId == studentId && IsLive(attempts, sessions[k], now)
  }

  /**
   * findFirst ordered by lastActivity descending: one of the given sessions
   * with the greatest lastActivity (ties are broken arbitrarily).
   */
  method LatestSession(sessions: map<nat, Session>, ids: set<nat>) returns (k: nat)
    requires ids != {} && ids <= sessions.Keys
    ensures k in ids
    ensures forall j :: j in ids ==> sessions[j].lastActivity <= sessions[k].lastActivity
  {
    k :| k in ids;
    var rest := ids - {k};
    while rest != {}
      invariant rest <= ids && k in ids
      invariant forall j :: j in ids && j !in rest ==> sessions[j].lastActivity <= sessions[k].lastActivity
      decreases |rest|
    {
      var j :| j in rest;
      if sessions[j].lastActivity > sessions[k].lastActivity {
        k := j;
      }
      rest := rest - {j};
    }
  }

  /** The records of one student. */
  function RecordsOfStudent(records: map<nat, Record>, studentId: nat): set<nat>
  {
    set k | k in records && records[k].studentId == studentId
  }

  /**
   * findFirst ordered by createdAt descending: one of the given records
   * created last (ties are broken arbitrarily).
   */
  method LatestRecord(records: map<nat, Record>, ids: set<nat>) returns (k: nat)
    requires ids != {} && ids <= records.Keys
    ensures k in ids
    ensures forall j :: j in ids ==> records[j].createdAt <= records[k].createdAt
  {
    k :| k in ids;
    var rest := ids - {k};
    while rest != {}
      invariant rest <= ids && k in ids
      invariant forall j :: j in ids && j !in rest ==> records[j].createdAt <= records[k].createdAt
      decreases |rest|
    {
      var j :| j in rest;
      if records[j].createdAt > records[k].createdAt {
        k := j;
      }
      rest := rest - {j};
    }
  }

  /** deleteMany of answers that match nothing leaves the table as it was. */
  lemma DropAnswersOfNothing(answers: map<(nat, nat), StoredAnswer>, attemptIds: set<nat>)
    requires forall k :: k in answers ==> k.0 !in attemptIds
    ensures DropAnswersOf(answers, attemptIds) == answers
  {
  }

  /** deleteMany of rows that do not exist leaves the table as it was. */
  lemma DropKeysOfNothing<K(!new), V>(m: map<K, V>, ids: set<K>)
    requires forall k :: k in ids ==> k !in m
    ensures DropKeys(m, ids) == m
  {
  }

  /** Deleting session rows keeps at most one session per student. */
  lemma DropKeepsOnePerStudent(sessions: map<nat, Session>, ids: set<nat>)
    ensures OnePerStudent(sessions) ==> OnePerStudent(DropKeys(sessions, ids))
  {
  }

  /** Dropping answers in two steps is dropping them for both sets of attempts at once. */
  lemma DropAnswersOfTwice(answers: map<(nat, nat), StoredAnswer>, xs: set<nat>, ys: set<nat>)
    ensures DropAnswersOf(DropAnswersOf(answers, xs), ys) == DropAnswersOf(answers, xs + ys)
  {
  }

  /** The records no attempt refers to. */
  function EmptyRecords(records: map<nat, Record>, attempts: map<nat, Attempt>): set<nat>
  {
    set r | r in records && !(exists k :: k in attempts && attempts[k].recordId == Some(r))
  }

  /** Every record an attempt refers to in before is still there in after. */
  predicate KeepsReferenced(attempts: map<nat, Attempt>, before: map<nat, Record>, after: map<nat, Record>)
  {
    forall k :: k in attempts && attempts[k].recordId.Some? && attempts[k].recordId.value in before ==>
      attempts[k].recordId.value in after
  }

  /** Deleting only records without attempts keeps every record an attempt refers to. */
  lemma DropEmptyKeepsReferenced(records: map<nat, Record>, attempts: map<nat, Attempt>, ids: set<nat>)
    requires ids <= EmptyRecords(records, attempts)
    ensures KeepsReferenced(attempts, records, DropKeys(records, ids))
  {
    forall k | k in attempts && attempts[k].recordId.Some? && attempts[k].recordId.value in records
      ensures attempts[k].recordId.value in DropKeys(records, ids)
    {
      assert attempts[k].recordId.value !in EmptyRecords(records, attempts);
    }
  }

  /** Every completed attempt of before is still there, unchanged, in after. */
  predicate KeepsCompleted(before: map<nat, Attempt>, after: map<nat, Attempt>)
  {
    forall k :: k in before && before[k].completedAt.Some? ==> k in after && after[k] == before[k]
  }

  /** Deleting only incomplete attempts keeps every completed one. */
  lemma DropIncompleteKeepsCompleted(attempts: map<nat, Attempt>, ids: set<nat>)
    requires forall k :: k in ids && k in attempts ==> attempts[k].completedAt.None?
    ensures KeepsCompleted(attempts, DropKeys(attempts, ids))
  {
  }

  /** No temporary answer and no session is left for any of the attempts. */
  predicate RowsGone(answers: map<(nat, nat), StoredAnswer>, sessions: map<nat, Session>, attemptIds: set<nat>)
  {
    (forall k :: k in answers ==> k.0 !in attemptIds) && SessionsOfAttempts(sessions, attemptIds) == {}
  }

  /** Dropping an attempt's answers and sessions together leaves none of either. */
  lemma DropRowsOf(answers: map<(nat, nat), StoredAnswer>, sessions: map<nat, Session>, attemptIds: set<nat>)
    ensures RowsGone(DropAnswersOf(answers, attemptIds), DropKeys(sessions, SessionsOfAttempts(sessions, attemptIds)), attemptIds)
  {
  }
}
