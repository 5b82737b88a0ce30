/**
 * The draft guard of src/utils/draft-guard.js: whether an attempt's package
 * is still published, and the removal of in-progress attempts when a tutor
 * turns a package back into a draft or deletes it. Completed attempts are
 * history and are never removed here.
 */
module DraftGuard {
  import opened Common
  import opened Db

  datatype PublishCheck =
    | AttemptNotFound
    | PackageDeleted
    | PackageDraft
    | PublishedOk(attempt: Attempt)

  /**
   * checkPackagePublished: the reasons are tried in the order missing
   * attempt, missing package, unpublished package; only a published
   * package lets the attempt through.
   */
  function CheckPackagePublished(attempts: map<nat, Attempt>, packages: map<nat, Package>, attemptId: nat)
    : (r: PublishCheck)
    ensures r == AttemptNotFound <==> attemptId !in attempts
    ensures r == PackageDeleted <==> attemptId in attempts && attempts[attemptId].packageId !in packages
    ensures r == PackageDraft <==>
      attemptId in attempts && attempts[attemptId].packageId in packages
      && packages[attempts[attemptId].packageId].status != Published
    ensures r.PublishedOk? ==> attemptId in attempts && r.attempt == attempts[attemptId]
    ensures r.PublishedOk? <==>
      attemptId in attempts && attempts[attemptId].packageId in packages
      && packages[attempts[attemptId].packageId].status == Published
  {
    if attemptId !in attempts then AttemptNotFound
    else if attempts[attemptId].packageId !in packages then PackageDeleted
    else if packages[attempts[attemptId].packageId].status != Published then PackageDraft
    else PublishedOk(attempts[attemptId])
  }

  /**
   * cleanupDraftAttempt: a missing or completed attempt is left alone and
   * deleted is false; an in-progress attempt loses its temporary answers,
   * its sessions and then the attempt row itself.
   */
  method CleanupDraftAttempt(db: Database, attemptId: nat) returns (deleted: bool)
    requires db.Valid()
    modifies db
    ensures db.Valid()
    ensures deleted <==> IsIncomplete(old(db.attempts), attemptId)
    ensures !deleted ==> db.attempts == old(db.attempts) && db.answers == old(db.answers) && db.sessions == old(db.sessions)
    ensures deleted ==>
      && db.attempts == DropKeys(old(db.attempts), {attemptId})
      && db.answers == DropAnswersOf(old(db.answers), {attemptId})
      && db.sessions == DropKeys(old(db.sessions), SessionsOfAttempts(old(db.sessions), {attemptId}))
      && RowsGone(db.answers, db.sessions, {attemptId})
    ensures KeepsCompleted(old(db.attempts), db.attempts)
    ensures old(db.OneSessionPerStudent()) ==> db.OneSessionPerStudent()
    ensures db.records == old(db.records)
    ensures db.packages == old(db.packages) && db.categories == old(db.categories) && db.nextId == old(db.nextId)
  {
    if !IsIncomplete(db.attempts, attemptId) {
      return false;
    }
    ghost var before := db.sessions;
    DropRowsOf(db.answers, db.sessions, {attemptId});
    DropIncompleteKeepsCompleted(db.attempts, {attemptId});
    db.answers := DropAnswersOf(db.answers, {attemptId});
    db.sessions := DropKeys(db.sessions, SessionsOfAttempts(db.sessions, {attemptId}));
    db.attempts := DropKeys(db.attempts, {attemptId});
    DropKeepsOnePerStudent(before, SessionsOfAttempts(before, {attemptId}));
    return true;
  }

  /** The in-progress attempts of a package. */
  function InProgressOf(attempts: map<nat, Attempt>, packageId: nat): set<nat>
  {
    set k | k in attempts && attempts[k].packageId == packageId && attempts[k].completedAt.None?
  }

  /**
   * cleanupPackageDraftAttempts: one transaction deletes the package's
   * in-progress attempts with their temporary answers and sessions and
   * returns how many attempts went; with none it returns 0 and writes
   * nothing.
   */
  method CleanupPackageDraftAttempts(db: Database, packageId: nat) returns (deletedCount: nat)
    requires db.Valid()
    modifies db
    ensures db.Valid()
    ensures deletedCount == |InProgressOf(old(db.attempts), packageId)|
    ensures deletedCount == 0 ==>
      db.attempts == old(db.attempts) && db.answers == old(db.answers) && db.sessions == old(db.sessions)
    ensures db.attempts == DropKeys(old(db.attempts), InProgressOf(old(db.attempts), packageId))
    ensures db.answers == DropAnswersOf(old(db.answers), InProgressOf(old(db.attempts), packageId))
    ensures db.sessions ==
      DropKeys(old(db.sessions), SessionsOfAttempts(old(db.sessions), InProgressOf(old(db.attempts), packageId)))
    ensures RowsGone(db.answers, db.sessions, InProgressOf(old(db.attempts), packageId))
    ensures InProgressOf(db.attempts, packageId) == {}
    ensures KeepsCompleted(old(db.attempts), db.attempts)
    ensures old(db.OneSessionPerStudent()) ==> db.OneSessionPerStudent()
    ensures db.records == old(db.records)
    ensures db.packages == old(db.packages) && db.categories == old(db.categories) && db.nextId == old(db.nextId)
  {
    var ids := InProgressOf(db.attempts, packageId);
    if |ids| == 0 {
      DropKeysOfNothing(db.attempts, ids);
      DropKeysOfNothing(db.sessions, SessionsOfAttempts(db.sessions, ids));
      DropAnswersOfNothing(db.answers, ids);
      return 0;
    }
    ghost var before := db.sessions;
    DropRowsOf(db.answers, db.sessions, ids);
    DropIncompleteKeepsCompleted(db.attempts, ids);
    db.answers := DropAnswersOf(db.answers, ids);
    db.sessions := DropKeys(db.sessions, SessionsOfAttempts(db.sessions, ids));
    db.attempts := DropKeys(db.attempts, ids);
    DropKeepsOnePerStudent(before, SessionsOfAttempts(before, ids));
    return |ids|;
  }

  /**
   * After the package-wide clean-up every attempt left on the package is
   * completed, so the per-attempt clean-up finds nothing more to delete.
   */
  lemma NothingLeftToClean(attempts: map<nat, Attempt>, packageId: nat, attemptId: nat)
    requires attemptId in DropKeys(attempts, InProgressOf(attempts, packageId))
    requires DropKeys(attempts, InProgressOf(attempts, packageId))[attemptId].packageId == packageId
    ensures !IsIncomplete(DropKeys(attempts, InProgressOf(attempts, packageId)), attemptId)
  {
  }
}
