/**
 * gradeAttempt of src/utils/grade-attempt.js run against the store: load
 * the attempt and its package, count the questions, list the attempt's
 * temporary answers, build and grade the answers, and turn the count into
 * a score.
 */
module AttemptGrading {
  import opened Common
  import opened Scoring
  import opened Grading
  import opened Db

  /** Every stored answer of an attempt is filed under its own item id. */
  lemma LookupKeysAreItemIds(answers: map<(nat, nat), StoredAnswer>, attemptId: nat)
    requires forall k :: k in answers ==> answers[k].answer.itemId == k.1
    ensures forall id :: id in AnswerLookup(answers, attemptId) ==> AnswerLookup(answers, attemptId)[id].itemId == id
  {
    var m := AnswerLookup(answers, attemptId);
    forall id | id in m ensures m[id].itemId == id {
      var k :| k in answers && k.0 == attemptId && k.1 == id;
      assert (attemptId, id) == k;
    }
  }

  /**
   * The findMany of the attempt's temporary answers: every stored answer of
   * the attempt exactly once, in whatever order the store returns them.
   */
  method LoadTempAnswers(db: Database, attemptId: nat) returns (ts: seq<TempAnswer>)
    requires db.Valid()
    ensures DistinctAnswerIds(ts)
    ensures ListsMap(ts, AnswerLookup(db.answers, attemptId))
  {
    var m := AnswerLookup(db.answers, attemptId);
    LookupKeysAreItemIds(db.answers, attemptId);
    var remaining := m.Keys;
    ts := [];
    while remaining != {}
      invariant remaining <= m.Keys
      invariant DistinctAnswerIds(ts)
      invariant forall i :: 0 <= i < |ts| ==> ts[i].itemId in m && ts[i].itemId !in remaining
      invariant forall id :: TempFor(ts, id) == (if id in m && id !in remaining then Some(m[id]) else None)
      decreases |remaining|
    {
      var id :| id in remaining;
      LoadStep(m, ts, remaining, id);
      ts := ts + [m[id]];
      remaining := remaining - {id};
    }
    forall id ensures TempFor(ts, id) == Lookup(m, id) {
    }
  }

  /** Listing one more remaining answer keeps the listing's invariants. */
  lemma LoadStep(m: map<nat, TempAnswer>, ts: seq<TempAnswer>, remaining: set<nat>, id: nat)
    requires forall k :: k in m ==> m[k].itemId == k
    requires id in remaining && remaining <= m.Keys
    requires DistinctAnswerIds(ts)
    requires forall i :: 0 <= i < |ts| ==> ts[i].itemId in m && ts[i].itemId !in remaining
    requires forall j :: TempFor(ts, j) == (if j in m && j !in remaining then Some(m[j]) else None)
    ensures DistinctAnswerIds(ts + [m[id]])
    ensures forall i :: 0 <= i < |ts + [m[id]]| ==>
      (ts + [m[id]])[i].itemId in m && (ts + [m[id]])[i].itemId !in remaining - {id}
    ensures forall j :: TempFor(ts + [m[id]], j) == (if j in m && j !in remaining - {id} then Some(m[j]) else None)
  {
    var next := ts + [m[id]];
    assert next[..|ts|] == ts;
    forall j | j != id ensures TempFor(next, j) == TempFor(ts, j) {
    }
  }

  /**
   * gradeAttempt: zeros for a missing attempt or package, otherwise the
   * score, question count and correct count of the package's items against
   * the attempt's stored answers.
   */
  method GradeAttempt(db: Database, attemptId: nat) returns (r: GradeResult)
    requires db.Valid()
    ensures r == StoreGrade(db.attempts, db.packages, db.answers, attemptId)
    ensures attemptId !in db.attempts || db.attempts[attemptId].packageId !in db.packages ==>
      r == GradeResult(0, 0, 0)
  {
    if attemptId !in db.attempts || db.attempts[attemptId].packageId !in db.packages {
      return GradeResult(0, 0, 0);
    }
    var items := db.packages[db.attempts[attemptId].packageId].items;
    var totalQuestions := CountQuestions(items);
    var tempAnswers := LoadTempAnswers(db, attemptId);
    var answers := BuildAnswersFromTemp(tempAnswers, items);
    var correctCount := GradeAnswers(answers, items);
    var totalScore := MathRound(CalculateScore(correctCount, totalQuestions));
    r := GradeResult(totalScore, totalQuestions, correctCount);
    GradeOfListing(items, tempAnswers, AnswerLookup(db.answers, attemptId));
  }

  /**
   * The stored grade of an attempt whose package keys fit their templates
   * is a percentage, and never more correct answers than questions.
   */
  lemma StoreGradeIsPercentage(attempts: map<nat, Attempt>, packages: map<nat, Package>,
                               answers: map<(nat, nat), StoredAnswer>, attemptId: nat)
    requires forall p :: p in packages ==> forall i :: 0 <= i < |packages[p].items| ==> KeyFitsTemplate(packages[p].items[i])
    ensures 0 <= StoreGrade(attempts, packages, answers, attemptId).totalScore <= 100
    ensures StoreGrade(attempts, packages, answers, attemptId).correctAnswers
         <= StoreGrade(attempts, packages, answers, attemptId).totalQuestions
  {
    if attemptId in attempts && attempts[attemptId].packageId in packages {
      var items := packages[attempts[attemptId].packageId].items;
      LookupGradeIsPercentage(items, AnswerLookup(answers, attemptId));
      LookupCountAtMostTotal(items, AnswerLookup(answers, attemptId));
    }
  }

  /**
   * The grade of an attempt depends only on its own row, its package and
   * its own stored answers: changing other attempts or their answers leaves
   * it as it was.
   */
  lemma StoreGradeLocal(attempts: map<nat, Attempt>, attempts': map<nat, Attempt>, packages: map<nat, Package>,
                        answers: map<(nat, nat), StoredAnswer>, answers': map<(nat, nat), StoredAnswer>, attemptId: nat)
    requires attemptId in attempts <==> attemptId in attempts'
    requires attemptId in attempts ==> attempts[attemptId] == attempts'[attemptId]
    requires forall k: (nat, nat) :: k.0 == attemptId ==> (k in answers <==> k in answers')
    requires forall k: (nat, nat) :: k.0 == attemptId && k in answers ==> answers[k] == answers'[k]
    ensures StoreGrade(attempts, packages, answers, attemptId) == StoreGrade(attempts', packages, answers', attemptId)
  {
    assert AnswerLookup(answers, attemptId) == AnswerLookup(answers', attemptId);
  }
}
