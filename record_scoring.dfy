/**
 * updateRecordAverageScore of src/utils/scoring.js: a test record's
 * averageScore is recomputed from the totalScore of all its completed
 * attempts and written back. The average is stated on the set of completed
 * attempts, so it does not depend on the order the store lists them in.
 */
module RecordScoring {
  import opened Common
  import opened Scoring
  import opened Db

  /** The totalScore an attempt adds to its record's sum (a missing score adds 0). */
  function Points(attempts: map<nat, Attempt>, k: nat): int
  {
    if k in attempts then ScoreValue(attempts[k].totalScore) else 0
  }

  /** The sum of the scores of a set of attempts. */
  ghost function ScoreTotal(attempts: map<nat, Attempt>, ids: set<nat>): int
    decreases ids
  {
    if ids == {} then 0
    else
      var k :| k in ids;
      Points(attempts, k) + ScoreTotal(attempts, ids - {k})
  }

  /** Any attempt can be taken out of the sum first: the sum does not depend on order. */
  lemma {:induction false} ScoreTotalRemove(attempts: map<nat, Attempt>, ids: set<nat>, x: nat)
    requires x in ids
    ensures ScoreTotal(attempts, ids) == Points(attempts, x) + ScoreTotal(attempts, ids - {x})
    decreases ids
  {
    var k :| k in ids && ScoreTotal(attempts, ids) == Points(attempts, k) + ScoreTotal(attempts, ids - {k});
    if k != x {
      ScoreTotalRemove(attempts, ids - {k}, x);
      ScoreTotalRemove(attempts, ids - {x}, k);
      assert ids - {k} - {x} == ids - {x} - {k};
    }
  }

  /** Bounds on the sum from bounds on each score. */
  lemma {:induction false} ScoreTotalBounds(attempts: map<nat, Attempt>, ids: set<nat>, lo: int, hi: int)
    requires forall k :: k in ids ==> lo <= Points(attempts, k) <= hi
    ensures |ids| * lo <= ScoreTotal(attempts, ids) <= |ids| * hi
    decreases ids
  {
    if ids != {} {
      var x :| x in ids;
      var rest := ids - {x};
      ScoreTotalRemove(attempts, ids, x);
      ScoreTotalBounds(attempts, rest, lo, hi);
      var t, p := ScoreTotal(attempts, rest), Points(attempts, x);
      assert |ids| == |rest| + 1;
      StepBounds(|rest|, t, p, lo, hi);
    }
  }

  lemma StepBounds(n: nat, t: int, p: int, lo: int, hi: int)
    requires n * lo <= t <= n * hi && lo <= p <= hi
    ensures (n + 1) * lo <= p + t <= (n + 1) * hi
  {
    assert (n + 1) * lo == n * lo + lo;
    assert (n + 1) * hi == n * hi + hi;
  }

  /** The average the record should hold: the rounded mean over its completed attempts, 0 for none. */
  ghost function RecordAverage(attempts: map<nat, Attempt>, recordId: nat): real
  {
    var ids := CompletedOfRecord(attempts, recordId);
    if |ids| == 0 then 0.0 else Round2(ScoreTotal(attempts, ids) as real / |ids| as real)
  }

  /** The record average lies between the lowest and highest completed score. */
  lemma RecordAverageBetween(attempts: map<nat, Attempt>, recordId: nat, lo: int, hi: int)
    requires 0 <= lo
    requires CompletedOfRecord(attempts, recordId) != {}
    requires forall k :: k in CompletedOfRecord(attempts, recordId) ==> lo <= Points(attempts, k) <= hi
    ensures lo as real <= RecordAverage(attempts, recordId) <= hi as real
  {
    var ids := CompletedOfRecord(attempts, recordId);
    ScoreTotalBounds(attempts, ids, lo, hi);
    MeanBetween(ScoreTotal(attempts, ids), |ids|, lo, hi);
  }

  /** Incomplete attempts and attempts of other records do not move the average. */
  lemma RecordAverageIgnoresOthers(attempts: map<nat, Attempt>, recordId: nat, k: nat, a: Attempt)
    requires a.recordId != Some(recordId) || a.completedAt.None?
    requires k in attempts ==> attempts[k].recordId != Some(recordId) || attempts[k].completedAt.None?
    ensures RecordAverage(attempts[k := a], recordId) == RecordAverage(attempts, recordId)
  {
    var ids := CompletedOfRecord(attempts, recordId);
    assert CompletedOfRecord(attempts[k := a], recordId) == ids;
    ScoreTotalSame(attempts, attempts[k := a], ids);
  }

  lemma {:induction false} ScoreTotalSame(attempts: map<nat, Attempt>, attempts': map<nat, Attempt>, ids: set<nat>)
    requires forall k :: k in ids ==> Points(attempts, k) == Points(attempts', k)
    ensures ScoreTotal(attempts, ids) == ScoreTotal(attempts', ids)
    decreases ids
  {
    if ids != {} {
      var x :| x in ids;
      ScoreTotalRemove(attempts, ids, x);
      ScoreTotalRemove(attempts', ids, x);
      ScoreTotalSame(attempts, attempts', ids - {x});
    }
  }

  datatype RecordUpdate = RecordUpdate(averageScore: real, allComplete: bool)

  /**
   * updateRecordAverageScore: None when the record does not exist (the
   * source throws and writes nothing); otherwise averageScore is
   * overwritten with the average of all completed attempts and allComplete
   * reports whether there is at least one.
   */
  method UpdateRecordAverageScore(db: Database, recordId: nat) returns (r: Option<RecordUpdate>)
    requires db.Valid()
    modifies db
    ensures db.Valid()
    ensures r.None? <==> recordId !in old(db.records)
    ensures r.None? ==> db.records == old(db.records)
    ensures r.Some? ==> r.value.averageScore == RecordAverage(db.attempts, recordId)
    ensures r.Some? ==> (r.value.allComplete <==> CompletedOfRecord(db.attempts, recordId) != {})
    ensures r.Some? ==>
      db.records == old(db.records)[recordId := old(db.records)[recordId].(averageScore := Some(r.value.averageScore))]
    ensures db.attempts == old(db.attempts) && db.sessions == old(db.sessions) && db.answers == old(db.answers)
    ensures db.packages == old(db.packages) && db.categories == old(db.categories) && db.nextId == old(db.nextId)
  {
    if recordId !in db.records {
      return None;
    }
    var attempts := db.attempts;
    var ids := CompletedOfRecord(attempts, recordId);
    var remaining := ids;
    ghost var done: set<nat> := {};
    var scores: seq<Option<int>> := [];
    while remaining != {}
      invariant unchanged(db)
      invariant done <= ids && remaining == ids - done
      invariant |scores| == |done|
      invariant ScoreSum(scores) == ScoreTotal(attempts, done)
      decreases |remaining|
    {
      var k :| k in remaining;
      var score := attempts[k].totalScore;
      ScoreTotalRemove(attempts, done + {k}, k);
      assert done + {k} - {k} == done;
      assert (scores + [score])[..|scores|] == scores;
      scores := scores + [score];
      done := done + {k};
      remaining := remaining - {k};
    }
    assert done == ids;
    var averageScore := CalculateAverageScore(scores);
    db.records := db.records[recordId := db.records[recordId].(averageScore := Some(averageScore))];
    return Some(RecordUpdate(averageScore, |scores| > 0));
  }
}
