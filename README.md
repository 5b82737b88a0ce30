# NovaEnglish exam backend — a verified model

This project models the core of the NovaEnglish exam backend: a server
where students take timed English tests made of question packages, one
package per category, and tutors author those packages and read the
results. The model covers four parts of it.

- **Grading and scoring.** Temporary answers are turned into answers and
  graded: choice items by trimmed key, text items blank by blank after
  normalisation. Every item counts as a number of questions that depends
  on its bracket template. The count becomes a percentage, and a test
  record's average is taken over its completed attempts.
- **The test-session lifecycle.** This covers preparing and starting a
  test, the session guard, auto-submit of expired sessions, finalisation,
  draft clean-up, the forced purge and the retention crons. It runs over
  one store of attempts, active sessions, temporary answers and test
  records.
- **Question authoring.** This covers the bracket templates, the mapping
  between the editor's question shapes and the stored rows, the
  keep-or-delete upsert of a package's pages and items, and the content
  hash that lets the editor skip unchanged saves.
- **Reporting, validation and authentication.** This covers the student
  and tutor reports, the band-level, template, category and upload
  checks, the session validator, the rate limiter, cookies and tokens, and
  the authentication routes.

Tables are maps from row id to row, held in classes whose methods change
them. Ids are natural numbers drawn from a counter; the database schema is
not part of this model, and where the source compares ids as text (the
student listing sorted by id) an id is read as its decimal string, as a
string id would be. Time is a parameter in
milliseconds. Randomness, hashing of passwords, e-mail and the JSON
serialiser are parameters too. Each database transaction is one method
that either applies all of its writes or none.

## Model

| member | source | states |
|---|---|---|
| Scoring.MathRound | src/utils/grade-attempt.js:108 | Math.round gives the integer within half of its argument, halves rounded up |
| Scoring.Round2 | src/utils/scoring.js:12 | toFixed(2) gives a multiple of 1/100 (at most two decimals) within half a hundredth of the value, with the sign kept |
| Scoring.Round2Between | src/utils/scoring.js:12 | rounding to two decimals keeps a value between two whole bounds |
| Scoring.Round2Monotone | src/utils/scoring.js:12 | rounding to two decimals keeps the order of two non-negative values |
| Scoring.CalculateScore | src/utils/scoring.js:10-13 | the score is 0 with no questions; for 0 <= correct <= total it lies in 0..100; for a non-negative ratio it is within half a hundredth of correct/total·100; it always has at most two decimals |
| Scoring.ScoreIsPercentage | src/utils/scoring.js:10-13 | with no more correct answers than questions the score and its rounded value lie in 0..100 |
| Scoring.ScoreMonotone | src/utils/scoring.js:10-13 | more correct answers never lower the score or the rounded score |
| Scoring.CalculateAverageScore | src/utils/scoring.js:21-25 | the mean of the scores, a null score counting as 0, rounded to within half a hundredth and to at most two decimals; the average of no attempts is 0 |
| Scoring.AverageBetween | src/utils/scoring.js:21-25 | the average of scores in lo..hi stays in lo..hi |
| Scoring.AverageExamples | src/utils/scoring.js:21-25 | 80 and 60 average to 70; 80, 60 and 100 average to 80 |
| Blanks.Blanks | src/utils/grade-attempt.js:93 | each blank's text holds no ']' and there are no more blanks than characters |
| Blanks.BlanksOfFill | src/utils/grade-attempt.js:93 | reading the blanks of a template built from text pieces and blanks gives back exactly those blanks, in order |
| Blanks.UnclosedExample | src/utils/grade-attempt.js:93 | a '[' with no later ']' opens no blank |
| Blanks.TemplateExample | src/utils/grade-attempt.js:93 | "I [am] a [student]." has the blanks "am" and "student" |
| Grading.Norm | src/utils/grade-attempt.js:40-46 | the normalised answer holds only a-z, 0-9 and single inner spaces, with no space at either end |
| Grading.NormIdempotent | src/utils/grade-attempt.js:40-46 | normalising twice is the same as normalising once |
| Grading.NormOfNormal | src/utils/grade-attempt.js:40-46 | a string already in normal form is its own norm |
| Grading.NormExample | src/utils/grade-attempt.js:40-61 | the blanks "Red", "sweet " and "COLD" earn 3 points against the keys red, sweet and cold |
| Grading.ItemById | src/utils/grade-attempt.js:6-9 | the item found for an id carries that id and is one of the items; none is found when no item has the id |
| Grading.BuildAnswersFromTemp | src/utils/grade-attempt.js:5-23 | the loop yields the answers of the specification, and every answer's item exists and has the answer's type |
| Grading.FindAnswerAppend | src/utils/grade-attempt.js:29 | find on two joined lists returns the first list's answer when it has one |
| Grading.FindBuiltAnswer | src/utils/grade-attempt.js:5-29 | with one stored answer per item, find returns the answer built from that item's stored row |
| Grading.SlotPoints | src/utils/grade-attempt.js:56-61 | a text item never earns more points than its key has slots |
| Grading.SlotPointsAllMatch | src/utils/grade-attempt.js:56-61 | blanks that match every slot earn one point per slot |
| Grading.CountMatchingSlots | src/utils/grade-attempt.js:56-61 | the per-blank loop counts the slots whose acceptable values include the student's blank |
| Grading.GradeAnswers | src/utils/grade-attempt.js:26-66 | the grading loop returns the sum of the per-item points |
| Grading.TempFor | src/utils/grade-attempt.js:101-104 | the stored answer found for an item has its id; none is found when no stored answer has it |
| Grading.GradeMatchesStored | src/utils/grade-attempt.js:5-66 | grading the built answers equals grading each item on its own stored row, whatever the row order |
| Grading.ItemScoreStored | src/utils/grade-attempt.js:5-66 | one item scores the same through the built answers as on its stored row |
| Grading.ItemByIdOfMember | src/utils/grade-attempt.js:6 | with distinct ids the map from id to item returns the item itself |
| Grading.QuestionCount | src/utils/grade-attempt.js:91-97 | every item counts as at least one question |
| Grading.CountQuestions | src/utils/grade-attempt.js:89-98 | the counting loop gives the total number of questions, at least one per item |
| Grading.ItemScoreBounded | src/utils/grade-attempt.js:56-61 | a text item whose key fits its template earns at most its question count |
| Grading.CorrectAtMostTotal | src/utils/grade-attempt.js:89-107 | when every key fits its template there are no more correct answers than questions |
| Grading.GradeOf | src/utils/grade-attempt.js:83-85 | a missing attempt or package grades as all zeros |
| Grading.GradeIsPercentage | src/utils/grade-attempt.js:106-110 | when every key fits its template the score lies in 0..100 and correct answers do not exceed questions |
| Grading.ScoreCanExceedHundred | src/utils/grade-attempt.js:89-110 | a short-answer item without brackets but with a two-slot key scores 200 on a full answer |
| Grading.ColoursHasNoBlank | src/utils/grade-attempt.js:93 | a template without brackets counts as no blanks |
| Grading.GradeOfListing | src/utils/grade-attempt.js:101-110 | grading any listing of the stored answers gives the grade read from those answers by item id |
| Grading.StoredCountOfList | src/utils/grade-attempt.js:101-107 | the per-item count over a listing equals the count read by item id |
| Grading.LookupCountAtMostTotal | src/utils/grade-attempt.js:89-107 | read by item id, correct answers never exceed the question count when every key fits |
| Grading.LookupGradeIsPercentage | src/utils/grade-attempt.js:106-110 | read by item id, the score lies in 0..100 when every key fits |
| AttemptGrading.LookupKeysAreItemIds | src/utils/grade-attempt.js:101-104 | the answers of an attempt read by item id are filed under their own item id |
| AttemptGrading.LoadTempAnswers | src/utils/grade-attempt.js:101-104 | the listed temporary answers are each of the attempt's stored answers exactly once |
| AttemptGrading.GradeAttempt | src/utils/grade-attempt.js:68-111 | the method returns the store's grade of the attempt, and zeros for a missing attempt or package |
| AttemptGrading.StoreGradeIsPercentage | src/utils/grade-attempt.js:106-110 | a stored grade is a percentage with no more correct answers than questions when keys fit |
| AttemptGrading.StoreGradeLocal | src/utils/grade-attempt.js:68-111 | an attempt's grade does not depend on other attempts or their answers |
| RecordScoring.ScoreTotalRemove | src/utils/scoring.js:23 | the score sum does not depend on the order the attempts are added in |
| RecordScoring.ScoreTotalBounds | src/utils/scoring.js:23 | scores in lo..hi sum to between n·lo and n·hi |
| RecordScoring.RecordAverageBetween | src/utils/scoring.js:34-60 | a record's average lies between its lowest and highest completed score |
| RecordScoring.RecordAverageIgnoresOthers | src/utils/scoring.js:38-42 | incomplete attempts and attempts of other records do not move a record's average |
| RecordScoring.ScoreTotalSame | src/utils/scoring.js:23 | two stores that agree on the scores of a set of attempts give the same sum |
| RecordScoring.UpdateRecordAverageScore | src/utils/scoring.js:34-60 | a missing record gives no result and no write; otherwise the record's average is set to the mean of its completed attempts and allComplete tells whether there is one |
| Db.ExpiryInstantGap | src/middleware/session-guard.js:14 | a session expiring exactly at now is neither live for the guard nor expired for auto-submit |
| Db.LatestSession | src/middleware/session-guard.js:21-23 | the session picked is one of the candidates with the greatest lastActivity |
| Db.LatestRecord | app/api/test/prepare/route.js:38-41 | the record picked is one of the candidates created last |
| Db.DropAnswersOf | src/utils/session-cleanup.js:149-151 | deleting the answers of some attempts keeps exactly the other answers, unchanged |
| Db.DropKeys | src/utils/session-cleanup.js:152-154 | deleting rows by id keeps exactly the other rows, unchanged |
| Db.DropAnswersOfNothing | src/utils/session-cleanup.js:149-151 | deleting the answers of attempts that have none changes nothing |
| Db.DropKeysOfNothing | src/utils/session-cleanup.js:152-154 | deleting rows that do not exist changes nothing |
| Db.DropKeepsOnePerStudent | src/utils/session-cleanup.js:152-154 | deleting sessions keeps at most one session per student |
| Db.DropAnswersOfTwice | src/utils/session-cleanup.js:149-151 | deleting answers in two steps equals deleting them for both sets of attempts at once |
| Db.DropEmptyKeepsReferenced | app/api/cron/cleanup-answers/route.js:53-59 | deleting only records without attempts keeps every record an attempt refers to |
| Db.DropIncompleteKeepsCompleted | app/api/cron/cleanup-answers/route.js:44-51 | deleting only incomplete attempts keeps every completed one, unchanged |
| Db.DropRowsOf | src/utils/session-cleanup.js:147-155 | deleting an attempt's answers and its sessions together leaves none of either |
| SessionGuard.GetActiveSession | src/middleware/session-guard.js:7-34 | no session is found exactly when the student has no live session; otherwise the one found is live with the latest lastActivity |
| SessionGuard.ValidateSessionToken | src/middleware/session-guard.js:36-52 | the token is valid exactly when a session of the student on the attempt carries it and has not expired |
| SessionGuard.TouchedNoSession | src/middleware/session-guard.js:54-64 | touching an attempt without a session changes nothing |
| SessionGuard.TouchedKeepsRows | src/middleware/session-guard.js:54-64 | touching keeps every row, its owner and its expiry, and keeps one session per student |
| SessionGuard.UpdateSessionActivity | src/middleware/session-guard.js:54-64 | only the attempt's sessions get lastActivity = now; nothing else changes |
| SessionGuard.GuardStatus | src/middleware/session-guard.js:67-120 | a pass answers 200, the two token failures 401 and every other rejection 403 |
| SessionGuard.GuardRedirect | src/middleware/session-guard.js:80-98 | only a missing session and another attempt in progress redirect the client |
| SessionGuard.EnforceSessionGuard | src/middleware/session-guard.js:67-120 | the checks run in the source's order; only a request that passes them all touches the session, and every rejection leaves the sessions as they were |
| SessionGuard.OwnTokenIsValid | src/middleware/session-guard.js:100-110 | the guarded session's own token passes the token check |
| SessionCleanup.CleanupDuplicateSessions | src/utils/session-cleanup.js:4-29 | with at most one session nothing is deleted and 0 is returned; otherwise only the latest session survives, the others go with their attempts' answers, the count is returned, and at most one session is left for the student |
| SessionCleanup.RemoveExpiredSessions | src/utils/session-cleanup.js:31-52 | exactly the sessions with expiresAt < now are deleted with their attempts' answers, and their number is returned; attempts are untouched |
| SessionCleanup.FinalizeExpiredSession | src/utils/session-cleanup.js:80-93 | the attempt gets completedAt = expiresAt, then its answers and then the session are deleted; a failing statement keeps the earlier writes |
| SessionCleanup.AutoSubmitExpiredSession | src/utils/session-cleanup.js:103-138 | a session expiring after now is left alone; otherwise one transaction grades the attempt, stamps completedAt = expiresAt with the score and deletes answers and session, or writes nothing when a row is missing |
| SessionCleanup.AutoSubmitTwice | src/utils/session-cleanup.js:129-131 | a second submit of the same session aborts, so an attempt is finalised at most once |
| SessionCleanup.CleanupAfterSubmit | src/utils/session-cleanup.js:148-156 | the attempt's answers and sessions are deleted and none are left; nothing else changes |
| SessionCleanup.CleanupAfterSubmitIdempotent | src/utils/session-cleanup.js:148-156 | a second clean-up of the same attempt deletes nothing more |
| AutoSubmit.NonEmpty | src/utils/auto-submit.js:63-64 | s \|\| null is absent exactly for the empty string and is s otherwise |
| AutoSubmit.FinalizeSession | src/utils/auto-submit.js:51-82 | the transaction succeeds exactly when the attempt exists; it then writes the graded, completed attempt with its title and category snapshots, deletes the attempt's answers and sessions and recomputes the record's average, and on failure writes nothing |
| AutoSubmit.OneSessionPicked | src/utils/auto-submit.js:16-39 | with one session per student at most one session is picked, so no two picked sessions share an attempt |
| AutoSubmit.SubmitSession | src/utils/auto-submit.js:50-86 | one transaction either rolls back and changes nothing, or extends the loop's outcome by the session's attempt and leaves its record holding the average of the attempts |
| AutoSubmit.SubmitAll | src/utils/auto-submit.js:47-87 | after the loop exactly the picked sessions outside failing are finalised, submittedCount counts them, and with at most one picked session its record holds the average of the attempts as they now are |
| AutoSubmit.AutoSubmitExpiredSessions | src/utils/auto-submit.js:12-90 | every picked session outside the failing ones has its attempt finalised, failing ones change nothing, nothing outside the picked attempts, their answers, sessions and record averages changes, and submittedCount counts the finalised attempts; with one session per student, each record a finalised session points at ends up holding the average of its attempts as they now are |
| DraftGuard.CheckPackagePublished | src/utils/draft-guard.js:8-37 | the reasons are missing attempt, then missing package, then draft package; only a published package passes, with its attempt |
| DraftGuard.CleanupDraftAttempt | src/utils/draft-guard.js:47-76 | a missing or completed attempt is left alone; an in-progress one loses its answers, its sessions and its row; completed attempts are never removed |
| DraftGuard.CleanupPackageDraftAttempts | src/utils/draft-guard.js:84-112 | the package's in-progress attempts go with their answers and sessions in one transaction, their number is returned, and completed attempts stay |
| DraftGuard.NothingLeftToClean | src/utils/draft-guard.js:47-112 | after the package-wide clean-up the per-attempt clean-up finds nothing to delete on that package |
| ForceCleanup.ForceCleanup | app/api/test/force-cleanup/route.js:5-44 | with no session nothing is cleaned; otherwise every session of the student goes with its attempt's answers and their number is returned, and attempts and records are untouched |
| ActiveSession.GetActiveSessionRoute | app/api/student/active-session/route.js:5-55 | non-students are refused; the reply names a live session with the latest activity, or none when there is none; the student's records without attempts are purged unless the purge fails, and no referenced record is removed |
| CronCleanupAnswers.CronSecretOptional | app/api/cron/cleanup-answers/route.js:9-13 | a request without the header passes exactly when no secret is configured, and the configured secret always passes |
| CronCleanupAnswers.RetentionCutoff | app/api/cron/cleanup-answers/route.js:16-17 | the cutoff lies exactly retentionDays days of milliseconds before now |
| CronCleanupAnswers.CleanupAnswers | app/api/cron/cleanup-answers/route.js:6-82 | a wrong secret writes nothing; otherwise old answers, sessions expired before the cutoff with their attempts' answers, old incomplete attempts and old records without attempts are deleted in that order, and completed attempts and referenced records stay |
| CronCleanupAnswers.CleanupLeavesNothingStale | app/api/cron/cleanup-answers/route.js:19-59 | a second run with the same cutoff finds nothing left to delete |
| CronCleanupResults.DaysInMonth | app/api/cron/cleanup-results/route.js:19 | a month has 28 to 31 days, and 29 exactly for February of a leap year |
| CronCleanupResults.SetMonth | app/api/cron/cleanup-results/route.js:19 | setMonth keeps the day and time of day and moves by whole months, rolling over into the next month when the day does not exist |
| CronCleanupResults.CutoffMonthIsMonthStart | app/api/cron/cleanup-results/route.js:15-21 | the corrected cutoff is midnight on day 1 of the month exactly `months` back |
| CronCleanupResults.CutoffAsWrittenAgrees | app/api/cron/cleanup-results/route.js:18-21 | the route's cutoff is the intended one whenever the current day exists in the target month |
| CronCleanupResults.CutoffAsWrittenOverflows | app/api/cron/cleanup-results/route.js:18-21 | otherwise the route's cutoff is one month later than intended |
| CronCleanupResults.CutoffAsWrittenExamples | app/api/cron/cleanup-results/route.js:18-21 | on 29 February 2024 with 12 months the route computes 1 March 2023 instead of 1 February 2023; on 31 March with one month it computes 1 March instead of 1 February |
| CronCleanupResults.LeapDayRunDeletesFebruary | app/api/cron/cleanup-results/route.js:18-27 | a record of 15 February 2023 is deleted by the route's run of 29 February 2024 but kept by the intended cutoff |
| CronCleanupResults.CleanupResults | app/api/cron/cleanup-results/route.js:5-60 | a wrong secret writes nothing; otherwise records created before the corrected cutoff CutoffMonth are deleted with all their attempts in one transaction, and no record an attempt still refers to is removed |
| Prepare.PrepareCount | app/api/test/prepare/route.js:104-109 | only short-answer items count per blank; every other item counts once, and every item at least once |
| Prepare.CountPreparedQuestions | app/api/test/prepare/route.js:101-111 | the nested loop gives the prepared total, at least one per item |
| Prepare.PrepareCountVsGrader | app/api/test/prepare/route.js:104 | the prepared count and gradeAttempt's count of an item differ exactly for matching items with two or more blanks |
| Prepare.PrepareTotalVsGrader | app/api/test/prepare/route.js:101-111 | the prepared total never exceeds gradeAttempt's total, and equals it exactly when no matching item has two or more blanks |
| Prepare.MatchingCountExample | app/api/test/prepare/route.js:104 | a matching item "[a] and [b]" is announced as 1 question but graded out of 2 |
| Prepare.TemplateTwoBlanks | app/api/test/prepare/route.js:105 | "[a] and [b]" has two blanks |
| Prepare.Unblocked | app/api/test/prepare/route.js:59-60 | filtering keeps exactly the requested categories that are not blocked |
| Prepare.ListPublishedCategories | app/api/test/prepare/route.js:19-25 | the listing holds each category with a published package exactly once |
| Prepare.Available | app/api/test/prepare/route.js:63-81 | every available category was requested and has a published package |
| Prepare.UnavailableOf | app/api/test/prepare/route.js:78-81 | every unavailable category exists and has no published package |
| Prepare.EveryCategoryAccounted | app/api/test/prepare/route.js:63-122 | every requested category is prepared, unavailable or unknown, exactly once |
| Prepare.PrepareCategories | app/api/test/prepare/route.js:63-122 | the loop prepares exactly the available categories, each with one of its published packages and that package's count and duration, and reports the rest as unavailable |
| Prepare.ChooseRecord | app/api/test/prepare/route.js:28-43 | a fresh record when asked for one, else the given record if the student owns it, else the student's latest record |
| Prepare.PrepareChosen | app/api/test/prepare/route.js:52-135 | the list worked on is the given one less the categories the chosen record has completed; the prepared categories are exactly its available ones, in order, each a good entry for a requested category not blocked by the record; the unavailable ones are exactly those with no published package; 'not available' exactly when none is available |
| Prepare.PrepareTest | app/api/test/prepare/route.js:5-140 | an empty category list is refused exactly when there is nothing to list; the list worked on is the request's, or every published category for a new record, less the categories the chosen record has completed; the prepared categories are exactly the available ones of that list, in order, and the unavailable ones exactly those with no published package; the reply is 'not available' exactly when none is available |
| Start.CheckRunning | app/api/test/start/route.js:31-75 | with no live session nothing happens; when the check lets the start go on past a live session, the latest live session had expired by the later clock reading and was auto-submitted: its attempt completed at the expiry with its grade, its answers and its session gone, nothing else changed; with one session per student an expired live session never blocks; a session still running blocks the start with its attempt and writes nothing; completed attempts stay |
| Start.ResolveRecord | app/api/test/start/route.js:90-120 | the given record if the student owns it, else the newest record with an incomplete attempt, else the newest record, else one created now; the record belongs to the student |
| Start.NewRecord | app/api/test/start/route.js:119 | a fresh record of the student, created now, under a new id |
| Start.BuildMetadata | app/api/test/start/route.js:214-232 | the client's testMeta object wins; otherwise the prepared categories rebuild one, in single or multiple mode; with neither there is none |
| Start.ReplaceSessions | app/api/test/start/route.js:160-177 | the student's sessions are replaced by exactly one new session |
| Start.CreateAttemptAndSession | app/api/test/start/route.js:195-251 | a race on the unique index writes nothing; otherwise a new attempt with its snapshots and its one session are created |
| Start.StartNewAttempt | app/api/test/start/route.js:189-274 | the new attempt is started exactly when the transaction does not race, and it is the one attempt added, under a fresh id, in the given record; on a race the attempts and sessions are as they were and another running session may be reported |
| Start.StartReusedAttempt | app/api/test/start/route.js:150-186 | an incomplete attempt of the category is reused with a fresh session and an expiry counted from now, unless its package is no longer published |
| Start.StartInRecord | app/api/test/start/route.js:90-274 | the record is the one the resolution order picks; with no attempt of the category in it a new attempt goes into that record; a picked incomplete attempt is reused and only the sessions change (or the package is unpublished and nothing changes); a picked completed attempt is refused exactly when the record still has an incomplete attempt, and otherwise exactly one new record is created, holding the new attempt; answers never change |
| Start.StartTest | app/api/test/start/route.js:10-279 | packageId and categoryId are required in that order; a running test blocks; an expired one is auto-submitted and, with one session per student, never blocks; an unknown category or unpublished package is refused; once the checks pass, the record step acts on the state left by the running check with every branch of Start.StartInRecord; a started test leaves the student with exactly one session on an open attempt; refusals create no record; completed attempts are never removed |
| Content.NextOrder | app/api/questions/item/route.js:32-33 | 1 when there is no row, else one more than some row's order and larger than every row's order |
| Transformers.FirstUrl | src/utils/questionTransformers.js:3-10 | "" when no asset has the kind; otherwise the url of the first asset of that kind |
| Transformers.OptionTexts | src/utils/questionTransformers.js:29-31 | [] for a non-array; otherwise one text per stored choice, in order (the string itself, or the object's text) |
| Transformers.KeyIndex | src/utils/questionTransformers.js:32-33 | an index exactly for the keys A..D, and that index names the key back |
| Transformers.TruthyKey | src/utils/questionTransformers.js:37 | an empty or missing key reads as null; any other key is kept |
| Transformers.DraftOfItem | src/utils/questionTransformers.js:18-51 | the draft keeps the item's id and media urls; its kind follows the item type, and an unknown type becomes an empty multiple-choice question |
| Transformers.DraftOfPage | src/utils/questionTransformers.js:12-53 | one draft question per item of the page, in order |
| Transformers.TransformToDraft | src/utils/questionTransformers.js:1-55 | one draft page per page and one draft question per item, in the loaded order, with the same ids |
| Transformers.SnapshotOfItem | src/utils/questionTransformers.js:65-86 | text is left out exactly for text items; correctIndex only for multiple choice, correctTFNG only for true/false/not-given, each template only for its type; options only for an array |
| Transformers.SnapshotDeterminesDraftItem | src/utils/questionTransformers.js:18-86 | two items with equal snapshots have equal drafts apart from their ids |
| Transformers.SnapshotDeterminesDraftPage | src/utils/questionTransformers.js:1-89 | two pages with equal snapshots have equal draft pages apart from the ids |
| Transformers.HashStepInjective | src/utils/questionTransformers.js:96 | one step of the hash keeps the previous hash and the code unit apart: equal outputs have equal inputs when one of them agrees |
| Transformers.HashDetectsOneEdit | src/utils/questionTransformers.js:94-97 | two inputs that differ in exactly one code unit never hash alike |
| Transformers.Hex | src/utils/questionTransformers.js:98 | the printed hash is non-empty lower-case hex with no leading zero |
| Transformers.HexRoundTrip | src/utils/questionTransformers.js:98 | the printed hex reads back as the number |
| Transformers.HexLength | src/utils/questionTransformers.js:98 | a number below 16^k prints with at most k digits |
| Transformers.ComputeContentHash | src/utils/questionTransformers.js:91-98 | the loop computes the hash of the whole serialised snapshot and prints it as one to eight hex digits that read back as the hash |
| QuestionMapping.FirstNonEmpty | app/api/questions/route.js:192 | the first non-empty of the three, "" only when all are empty |
| QuestionMapping.KeyOf | app/api/questions/route.js:198 | positions 0..3 get A..D and every other position its decimal string; never empty |
| QuestionMapping.KeyIndexInvertsKeyOf | app/api/questions/route.js:203 | reading a key back gives the position for 0..3 and no index for any other position |
| QuestionMapping.McqChoices | app/api/questions/route.js:197-198 | one choice per option, in order, keyed by its position |
| QuestionMapping.TemplateAnswers | app/api/questions/route.js:218-221 | one answer per bracket blank of the template, in order, each trimmed and lower-cased |
| QuestionMapping.NonEmpty | app/api/questions/route.js:235 | keeps exactly the non-empty answers |
| QuestionMapping.MatchingOptions | app/api/questions/route.js:235 | exactly the distinct non-empty answers, none repeated |
| QuestionMapping.TextChoices | app/api/questions/route.js:236 | one text-only choice per answer, in order |
| QuestionMapping.PatchOf | app/api/questions/route.js:189-245 | the columns of each editor type: lettered choices and key for multiple choice, fixed T/F/NG choices for true/false/not-given, template answers for short answer (choices left alone) and matching (distinct answers as choices); any other type gives the empty patch, which writes only page, order and question text |
| QuestionMapping.ApplyPatch | app/api/questions/route.js:247-253 | the row holds the patch's columns, the page and the order; choices not written keep their old value on update and are null on create; an empty patch updates page, order and text and keeps the stored type, choices, key and answers |
| QuestionMapping.McqTexts | app/api/questions/route.js:198 | the option texts read back from the stored choices are the options sent |
| QuestionMapping.McqRoundTrip | app/api/questions/route.js:196-205 | a saved multiple-choice question reads back with its text and options, and with its correct index for positions 0..3 |
| QuestionMapping.TfngRoundTrip | app/api/questions/route.js:206-216 | a saved true/false/not-given question reads back with its text and its answer |
| QuestionMapping.ShortRoundTrip | app/api/questions/route.js:217-228 | a saved short-answer question reads back with its template |
| QuestionMapping.TextChoicesTexts | app/api/questions/route.js:236 | the texts read back from text-only choices are the answers |
| QuestionMapping.MatchingRoundTrip | app/api/questions/route.js:229-244 | a saved matching question reads back with its template and its distinct answers one per line |
| QuestionMapping.SavedKeyFitsTemplate | app/api/questions/route.js:217-244 | an item saved from one of the four editor types has one key slot per blank of its template, so it never scores above its question count |
| QuestionMapping.UntypedUpdateCanBreakFit | app/api/questions/route.js:189-195 | an update from a question of another type replaces the text but keeps the stored answer key, so a two-blank short-answer row edited into plain text keeps two key slots for one question |
| QuestionSave.SaveItemsAbortPrefix | app/api/questions/route.js:152-275 | once the save of a page's question fails (an update of a deleted row, or a create without an editor type), the whole page fails |
| QuestionSave.SavePagesAbortPrefix | app/api/questions/route.js:152-275 | once a page fails, the whole transaction fails |
| QuestionSave.SaveItemsFrame | app/api/questions/route.js:187-254 | saving a page's questions touches only items: it returns one id per question, each a loaded item of the page or a new id, and keeps every other item |
| QuestionSave.SaveItemsOrders | app/api/questions/route.js:187-191 | with no question id repeated, every question is saved on its page with itemOrder equal to its position plus one |
| QuestionSave.SaveItemsIds | app/api/questions/route.js:247-253 | a question naming a loaded item of its page is saved under that id; any other question gets a new id (a create of a question of no editor type fails the page) |
| QuestionSave.GrowsTransitive | app/api/questions/route.js:165-264 | the frame kept by one page save composes over consecutive pages |
| QuestionSave.SavePageFrame | app/api/questions/route.js:166-181 | a page is updated under its own id when it names a loaded page of the package, else created under a new id, with pageOrder its position plus one; other pages keep their rows |
| QuestionSave.SavePagesFrame | app/api/questions/route.js:165-264 | one id per payload page: the named loaded page, or a new id |
| QuestionSave.SavePagesKeepsPages | app/api/questions/route.js:165-264 | a page the loop does not save keeps its row |
| QuestionSave.SaveTransactionBounded | app/api/questions/route.js:152-275 | the transaction hands out ids only from the counter |
| QuestionSave.SaveRemovesAbsentPages | app/api/questions/route.js:266-274 | a loaded page the payload does not name is gone after the save, together with its items and its media |
| QuestionSave.SaveKeepsOtherPackages | app/api/questions/route.js:152-275 | pages of other packages, and items not on this package's pages, keep their rows |
| QuestionSave.SavePageOrders | app/api/questions/route.js:165-181 | with no loaded page named twice, every payload page is a page of the package with pageOrder equal to its position plus one |
| QuestionSave.SavePagesOrdersPrefix | app/api/questions/route.js:165-181 | the same for the page loop on its own |
| QuestionRoute.SaveQuestions | app/api/questions/route.js:184-263 | the item loop computes the question fold of the page |
| QuestionRoute.SaveOnePage | app/api/questions/route.js:166-263 | the page step computes the page fold |
| QuestionRoute.SaveAllPages | app/api/questions/route.js:165-264 | the page loop computes the fold over all pages |
| QuestionRoute.SaveContent | app/api/questions/route.js:152-275 | the transaction writes the fold's tables when it succeeds and nothing when it aborts; packages are not touched |
| QuestionRoute.PayloadQuestionCount | app/api/questions/route.js:39-43 | zero exactly when no page has a question |
| QuestionRoute.CheckChanged | app/api/questions/route.js:82 | unchanged exactly when the hashes are equal and the metadata is the same |
| QuestionRoute.OneEditIsReported | app/api/questions/route.js:60-88 | a client serialisation that differs from the server's in one code unit is always reported as changed |
| QuestionRoute.NatOfHash | src/utils/questionTransformers.js:98 | the unsigned value of a 32-bit hash converts back to the hash |
| QuestionRoute.HexInjective | src/utils/questionTransformers.js:98 | different numbers print differently |
| QuestionRoute.PackageUpdate | app/api/questions/route.js:127-138 | the status becomes PUBLISHED or DRAFT; the duration is overwritten only for a positive duration or a publish |
| QuestionRoute.RemovedKeys | app/api/questions/route.js:288-292 | every removed storage key was a key of the package before the save and is not one after it |
| QuestionRoute.Screen | app/api/questions/route.js:12-125 | the checks in order: user, role, packageId, publish needs questions then a duration, package exists; checkOnly reports changed or asks for a hash; an equal hash with the same metadata returns the stored draft |
| QuestionRoute.WriteSave | app/api/questions/route.js:127-343 | the package status and duration are written first; a failed transaction leaves the content as it was; a saved one holds the fold's tables, the sent total and the removed storage keys |
| QuestionRoute.PostQuestions | app/api/questions/route.js:10-348 | a refused, check-only or unchanged request writes nothing; otherwise the save as above; a published package always has questions and a positive duration |
| QuestionPage.PageOrders | app/api/questions/page/route.js:29 | one order per page |
| QuestionPage.PostPage | app/api/questions/page/route.js:8-49 | user, role, packageId and package checks in order, writing nothing when refused; a positive requested order is used, else one more than the package's largest, or 1; story and instructions default to null |
| QuestionItem.ItemTypeOf | app/api/questions/item/route.js:25-27 | only the four item type names are accepted |
| QuestionItem.ItemAnswerText | app/api/questions/item/route.js:36-50 | null for choice types; for text types the template's answers when it has blanks, else the body's array, else a non-empty body string as one answer, else [] |
| QuestionItem.OptionChoices | app/api/questions/item/route.js:56-66 | no more choices than options |
| QuestionItem.OptionChoicesAreTexts | app/api/questions/item/route.js:56-66 | every stored option is a text-only object |
| QuestionItem.StringChoice | app/api/questions/item/route.js:59-61 | a string option becomes its trimmed text |
| QuestionItem.StringOptionsKept | app/api/questions/item/route.js:59-61 | string options are all kept, even ones that trim to "" |
| QuestionItem.StringOptionAt | app/api/questions/item/route.js:59-61 | the i-th string option becomes the i-th choice, trimmed |
| QuestionItem.ObjectOptionsNonBlank | app/api/questions/item/route.js:62-66 | object options whose text is blank are dropped |
| QuestionItem.ItemChoices | app/api/questions/item/route.js:53-72 | [] for multiple choice, null for true/false/not-given and short answer; a matching item takes its options when given, else its distinct non-empty answers, else null |
| QuestionItem.ItemOrders | app/api/questions/item/route.js:32 | one order per item |
| QuestionItem.PlaceholderKeyFits | app/api/questions/item/route.js:38-42 | an item created from a template with blanks has one key slot per blank |
| QuestionItem.PlaceholderKeyCanOverflow | app/api/questions/item/route.js:43-44 | a short-answer item without blanks but with two body answers has more key slots than questions |
| QuestionItem.PostItem | app/api/questions/item/route.js:8-90 | user, role, pageId, type and page checks in order, writing nothing when refused; the item is appended with itemOrder one more than the page's largest (1 on an empty page), correctKey null and the normalised answers and choices |
| Account.Stored | app/api/account/route.js:39-47 | an absent field keeps the stored value, null clears it, a value replaces it |
| Account.StoredPlace | app/api/account/route.js:42-45 | an absent place of birth is kept, null clears it, a given one is stored title-cased |
| Account.ApplyPatch | app/api/account/route.js:34-57 | e-mail, password, role, verification and last login never change; each field present in the body is stored, names title-cased, and each absent one is kept |
| Account.EmptyPatchChangesNothing | app/api/account/route.js:49-51 | a body with no field would change nothing, which is the case refused as 'No fields to update' |
| Account.PatchIdempotent | app/api/account/route.js:34-57 | sending the same patch twice stores what sending it once does |
| Account.WriteUser | app/api/account/route.js:53-57 | only the user's row is rewritten, keeping its e-mail |
| Account.UpdateAccount | app/api/account/route.js:15-64 | the auth refusal with its status; 400 for an empty, non-JSON or invalid body or one with no field; a failed update for a vanished user; otherwise the patched user, stored and returned; nothing changes unless updated |
| Account.DropRefreshOf | app/api/account/route.js:72 | exactly the user's refresh tokens go with the user, the rest unchanged |
| Account.DeleteKeepsValid | app/api/account/route.js:72-75 | deleting a user with their tokens keeps the tables valid and leaves no token of theirs |
| Account.RemoveUser | app/api/account/route.js:72-75 | the user and all of their refresh, verification and reset tokens are deleted, and nothing else |
| Account.DeleteAccount | app/api/account/route.js:66-84 | the auth refusal with its status; a failed delete for a vanished user; otherwise the user and their tokens are gone and both cookies are cleared; nothing changes unless deleted |
| AuthForgotPassword.AddResetToken | app/api/auth/forgot-password/route.js:61-67 | one reset token row for the user under the next token id; nothing else changes |
| AuthForgotPassword.ForgotPassword | app/api/auth/forgot-password/route.js:19-78 | 429 when rate-limited, otherwise the same generic reply whatever the body or the e-mail; a reset token expiring after the configured time is created exactly for an existing verified owner of the lower-cased e-mail, and nothing else changes |
| AuthLogin.RevokeAll | app/api/auth/login/route.js:84-87 | every refresh token of the user that is not yet revoked is revoked now; other users' tokens and already revoked ones are untouched |
| AuthLogin.DropExpired | app/api/auth/login/route.js:89-91 | exactly the user's refresh tokens that expired before now are deleted, the rest unchanged |
| AuthLogin.SingleDevice | app/api/auth/login/route.js:76-105 | after a login the user's only live refresh token is the new one |
| AuthLogin.OthersUntouched | app/api/auth/login/route.js:84-91 | other users' refresh tokens are left exactly as they were |
| AuthLogin.Authenticate | app/api/auth/login/route.js:21-71 | 429 when rate-limited; 'Invalid credentials' for a missing, malformed or invalid body, an unknown lower-cased e-mail or a wrong password; EMAIL_NOT_VERIFIED for an unverified user with the right password; otherwise that user |
| AuthLogin.IssueSession | app/api/auth/login/route.js:74-105 | the user's lastLogin becomes now, refresh tokens become the login's, and nothing else changes |
| AuthLogin.LoginStamp | app/api/auth/login/route.js:74-99 | a token stamped with the login time passes the session check, and one stamped more than a second earlier fails |
| AuthLogin.Login | app/api/auth/login/route.js:21-128 | the refusals of Authenticate with nothing changed; on success lastLogin is now, the user has exactly one live refresh token, the access token carries the user, role and login time, both cookies are set, and older sessions of the user stop passing the session check |
| AuthRefresh.Decide | app/api/auth/refresh/route.js:21-57 | the token's owner exactly when the hash is stored, unrevoked, unexpired and its user exists; 'Expired refresh token' exactly for a stored, unrevoked token past its expiry; otherwise 'Invalid refresh token' |
| AuthRefresh.PruneRevoked | app/api/auth/refresh/route.js:60-61 | exactly the user's tokens revoked before the cutoff are deleted, the rest unchanged |
| AuthRefresh.ReplayRejected | app/api/auth/refresh/route.js:64-70 | rotation is one-time: the presented token ends revoked and pointing at its live successor, and presenting it again is refused |
| AuthRefresh.RefreshKeepsOthers | app/api/auth/refresh/route.js:60-70 | other users' tokens are kept as they were |
| AuthRefresh.LoginStamp | app/api/auth/refresh/route.js:74 | the new access token carries the stored login time, the epoch 0 included, or now when there is none |
| AuthRefresh.EpochLoginRefreshRejected | app/api/auth/refresh/route.js:74 | a user whose stored login is the epoch gets a token stamped 0, which the session check refuses |
| AuthRefresh.RefreshedTokenValid | app/api/auth/refresh/route.js:74-79 | a refreshed access token passes the session check while no newer login has happened, unless the stored login is the epoch |
| AuthRefresh.RotateToken | app/api/auth/refresh/route.js:60-70 | the refresh tokens become the pruned and rotated ones and nothing else changes |
| AuthRefresh.Refresh | app/api/auth/refresh/route.js:8-94 | a missing token, an unknown or revoked one, an expired one or one of a deleted user is refused with both cookies cleared and nothing changed; otherwise the token is rotated and new access and refresh cookies are set |
| AuthRegister.ParseGender | app/api/auth/register/route.js:34-35 | MALE or FEMALE exactly when the upper-cased gender is that word |
| AuthRegister.EmailDomain | app/api/auth/register/route.js:53 | an address without '@' has no domain |
| AuthRegister.DomainOfAddress | app/api/auth/register/route.js:53 | for local@domain with a single '@' the domain is the trimmed part after it |
| AuthRegister.NewUser | app/api/auth/register/route.js:72-85 | the new user has the lower-cased e-mail, is unverified and never logged in, is a student unless a role was sent, and has title-cased name and place of birth |
| AuthRegister.StoredNameStable | app/api/auth/register/route.js:76 | a stored name is already title-cased: casing it again stores the same text |
| AuthRegister.AddAccountKeepsValid | app/api/auth/register/route.js:64-97 | adding a user with a free e-mail and a token of theirs keeps e-mails unique and every token owned |
| AuthRegister.CreateAccount | app/api/auth/register/route.js:72-97 | the user is added under the next id and its verification token under the next token id; nothing else changes |
| AuthRegister.Precheck | app/api/auth/register/route.js:23-61 | the checks pass exactly when the body parses, the schema accepts it, the birth date is at least three years back and the domain is non-empty with MX records; otherwise the first failing check's 400 in route order |
| AuthRegister.Complete | app/api/auth/register/route.js:63-97 | 409 and no change when the e-mail is taken; a failed insert for an unparseable birth date; otherwise the account is created |
| AuthRegister.Register | app/api/auth/register/route.js:21-120 | the precheck's refusal with nothing changed; then 409 for a taken e-mail; otherwise exactly one new unverified user with the sent values and one verification token expiring after the configured time, whose raw token goes into the link |
| AuthResendVerification.ResendMax | app/api/auth/resend-verification/route.js:19 | three requests per window in production, ten otherwise |
| AuthResendVerification.ResendLeavesOneToken | app/api/auth/resend-verification/route.js:61-74 | after a resend the user has exactly one verification token, the new one, and no other user's token changed |
| AuthResendVerification.ReplaceVerificationToken | app/api/auth/resend-verification/route.js:62-74 | the user's verification tokens are replaced by one new row and nothing else changes |
| AuthResendVerification.ResendAllowed | app/api/auth/resend-verification/route.js:26-85 | 400 for an empty, non-JSON or invalid body, 404 for an unregistered address, the verified flag for a probe, otherwise the tokens are replaced; nothing changes unless a link is sent |
| AuthResendVerification.ResendVerification | app/api/auth/resend-verification/route.js:13-89 | the limiter's counter for the client rises by one; 429 exactly when it passes the per-environment maximum, with nothing else changed; otherwise the answer of ResendAllowed |
| AuthResetPassword.Refusal | app/api/auth/reset-password/route.js:32-46 | 404 'Invalid reset link' exactly for an unknown user, 404 for no matching token, 410 exactly for an expired one |
| AuthResetPassword.CheckResetToken | app/api/auth/reset-password/route.js:28-46 | no user exactly when no user has the lower-cased e-mail; for the owner, no token exactly when none of their rows carries the hash, otherwise live or expired by that row's expiry |
| AuthResetPassword.ValidateLink | app/api/auth/reset-password/route.js:20-52 | 400 for an invalid query, the refusal of the lookup, otherwise 'Token is valid', with nothing written |
| AuthResetPassword.ApplyReset | app/api/auth/reset-password/route.js:91-98 | the user's password hash is replaced, every reset token of theirs is deleted so none matches again, and nothing else changes |
| AuthResetPassword.ResetPassword | app/api/auth/reset-password/route.js:54-107 | 400 for an empty, non-JSON or invalid body; the lookup's refusal with nothing changed; otherwise the new hash is stored and the link is consumed |
| AuthStore.RoleName | app/api/auth/login/route.js:97 | the token and the database spell a role STUDENT, TUTOR or ADMIN, and STUDENT only for a student |
| AuthStore.LastLogins | src/middleware/session-validator.js:17-20 | the stored lastLogin of every user, and of users only |
| AuthStore.DropTokensOf | app/api/auth/verify-email/route.js:52 | deleteMany by user removes exactly that user's rows and keeps the others unchanged |
| AuthStore.DropKeepsOwned | app/api/auth/verify-email/route.js:52 | after a user's rows are deleted, every remaining row still belongs to a remaining user |
| AuthStore.DroppedMatchesNothing | app/api/auth/verify-email/route.js:52 | once a user's tokens are deleted, no token of theirs matches any hash, so a used link cannot be used again |
| AuthStore.RewriteUserKeepsValid | app/api/auth/verify-email/route.js:46-53 | rewriting a user without changing the e-mail, and deleting token rows, keeps e-mails unique and every token owned |
| AuthStore.Store.constructor | app/api/auth/login/route.js:47 | the tables start empty |
| AuthStore.Store.FindByEmail | app/api/auth/login/route.js:47-50 | no user exactly when none has that e-mail, and otherwise the only one that has it |
| AuthStore.Store.FindToken | app/api/auth/verify-email/route.js:32-34 | no row exactly when no row of the user carries the hash, and otherwise one that does |
| AuthVerifyEmail.MarkedVerified | app/api/auth/verify-email/route.js:47-50 | the user is verified and no other user changes |
| AuthVerifyEmail.MarkVerified | app/api/auth/verify-email/route.js:46-53 | the user is verified, all of their verification tokens are deleted so none can match again, and nothing else changes |
| AuthVerifyEmail.VerifyEmail | app/api/auth/verify-email/route.js:11-59 | 400 for an invalid query, 404 for an unknown e-mail, success without change for an already verified user, 404 when no token of the user matches, 410 when it expired, otherwise verified with the tokens deleted; nothing changes unless verified |
| Categories.NewId | app/api/tutor/categories/route.js:92-96 | the new category's id is above every id in use |
| Categories.NewCategoryIsEmpty | app/api/tutor/categories/route.js:103 | a new category has no packages, so the reply's packageCount 0 is its true count |
| Categories.AddCategory | app/api/tutor/categories/route.js:91-96 | a free name is stored under an id no category has, nothing else changes, and names stay distinct ignoring case |
| Categories.CreateCategory | app/api/tutor/categories/route.js:50-114 | unauthorized exactly without a user, forbidden exactly for a student, 400 exactly for a missing or blank name, 409 exactly when a category has the trimmed name ignoring case; only a created category changes the table, under a new id with the trimmed name, and names stay distinct ignoring case |
| Categories.ListCategories | app/api/tutor/categories/route.js:5-48 | unauthorized exactly without a user, forbidden exactly for a student; otherwise one view per category in name order with its number of packages |
| Categories.CreatedIsListedEmpty | app/api/tutor/categories/route.js:92-109 | the category the POST reports is the one the GET then lists |
| Common.SumAppend | app/api/tutor/dashboard/summary/route.js:122-180 | a sum grows by exactly the appended value |
| Common.TrimStart | app/api/tutor/feedback/levels/route.js:71 | only leading white space is removed, and what remains does not start with it |
| Common.TrimEnd | app/api/tutor/feedback/levels/route.js:71 | only trailing white space is removed, and what remains does not end with it |
| Common.Trim | app/api/tutor/feedback/levels/route.js:71 | the trimmed text has no white space at either end and is what is left of the input after white space is removed from its ends only (StripsTo) |
| Common.TrimIsInfix | app/api/tutor/feedback/levels/route.js:71 | the trimmed text is the slice s[i..j] of the input with only white space before i and after j |
| Common.BlankIffTrimsToEmpty | app/api/tutor/feedback/levels/route.js:71 | trim() gives '' exactly for text made only of white space |
| Common.TrimOfTrimmed | app/api/tutor/feedback/levels/route.js:109 | text without white space at its ends is its own trim |
| Common.TrimIdempotent | app/api/tutor/feedback/levels/route.js:109 | trimming twice is trimming once |
| Common.LowerChar | app/api/auth/login/route.js:48 | toLowerCase maps exactly the ASCII capitals to their small letters |
| Common.UpperChar | app/api/tutor/feedback/levels/route.js:83 | toUpperCase maps exactly the ASCII small letters to their capitals |
| Common.Lower | app/api/auth/login/route.js:48 | each character lower-cased in place |
| Common.Upper | app/api/tutor/feedback/levels/route.js:83 | each character upper-cased in place |
| Common.IndexOf | src/lib/auth.js:96 | no position exactly when the character does not occur, else its first position |
| Common.Split | src/lib/auth.js:94 | split gives at least one piece, none holding the separator |
| Common.JoinSplit | src/lib/auth.js:96-97 | joining the pieces of a split with the separator gives the text back |
| Common.NatString | src/middleware/rate-limit.js:53-55 | String(n) of a natural number is a non-empty run of digits |
| Common.IntString | src/middleware/rate-limit.js:53-55 | String(i) of an integer is non-empty, made of digits and a minus sign |
| Common.Distinct | app/api/tutor/feedback/levels/route.js:86 | [...new Set(xs)] holds exactly the elements of xs, each once, and is no longer than xs |
| Common.DistinctSnoc | app/api/tutor/feedback/levels/route.js:86 | one more element joins the distinct elements at the end unless it is already there |
| Cookies.Capitalise | src/lib/auth.js:30 | capitalising keeps the length |
| Cookies.SameSitePart | src/lib/auth.js:27-32 | a SameSite attribute appears exactly when the setting is lax, strict or none in any letter case, and then capitalised |
| Cookies.SameSiteSpellings | src/lib/auth.js:30 | the only SameSite values sent are Lax, Strict and None |
| Cookies.Slot | src/lib/auth.js:21-26 | an attribute is pushed exactly when its condition holds |
| Cookies.Attrs | src/lib/auth.js:18-34 | an attribute is present exactly when serializeCookie's condition for it holds |
| Cookies.PushInOrder | src/lib/auth.js:21-26 | pushing an attribute of the next rank keeps the order |
| Cookies.SlotsInOrder | src/lib/auth.js:21-32 | the seven attribute slots in rank order concatenate in order |
| Cookies.AttrsInOrder | src/lib/auth.js:21-32 | attributes come out Max-Age, Domain, Path, Expires, HttpOnly, Secure, SameSite, each at most once |
| Cookies.RenderAll | src/lib/auth.js:21-32 | each attribute is written out in its place |
| Cookies.Parts | src/lib/auth.js:19-34 | name=value comes first, then one part per attribute in order |
| Cookies.SerializeCookie | src/lib/auth.js:18-35 | the cookie keeps its name and value, with exactly the attributes the options ask for |
| Cookies.BareCookie | src/lib/auth.js:19-34 | a cookie without attributes is just name=value |
| Cookies.CookieDomain | src/lib/auth.js:41 | the Domain is kept exactly for a non-empty dotted host other than localhost |
| Cookies.SiteCookie | src/lib/auth.js:37-89 | every cookie is HttpOnly for path /, carries the given Max-Age and Expires, Secure exactly when configured, and a Domain exactly when CookieDomain keeps it |
| Cookies.CreateAuthCookie | src/lib/auth.js:37-50 | the auth cookie carries the token, lasts maxAgeDays days in seconds and has no Expires |
| Cookies.CreateRefreshCookie | src/lib/auth.js:65-76 | the refresh cookie carries the token, lasts maxAgeDays days in seconds and has no Expires |
| Cookies.ClearAuthCookie | src/lib/auth.js:52-63 | clearing the auth cookie empties it with Max-Age 0 and an expiry at the epoch |
| Cookies.ClearRefreshCookie | src/lib/auth.js:78-89 | clearing the refresh cookie empties it with Max-Age 0 and an expiry at the epoch |
| Cookies.PairKey | src/lib/auth.js:96 | a pair's name is the prefix before its first '=' and holds no '=' |
| Cookies.PairIsSplitAtFirstEquals | src/lib/auth.js:96-97 | name and value are split('=')[0] and the rest rejoined with '=' |
| Cookies.ValueKeepsEquals | src/lib/auth.js:96-97 | a value containing '=' is read back whole |
| Cookies.FoldStep | src/lib/auth.js:95-98 | each pair overwrites its name in the map |
| Cookies.ParseCookies | src/lib/auth.js:91-100 | the loop builds the cookie map of the header |
| Cookies.FoldPairs | src/lib/auth.js:95-98 | the loop over the pairs builds the map the pairs define |
| Cookies.FoldKeys | src/lib/auth.js:95-98 | a name is in the map exactly when some pair carries it |
| Cookies.LaterDuplicateWins | src/lib/auth.js:97 | of several pairs with the same name, the last one wins |
| Cookies.TrimOfSpaceless | src/lib/auth.js:96 | text without white space is its own trim |
| Cookies.FoldSingle | src/lib/auth.js:95-98 | a single pair is the whole map |
| Cookies.SplitWithoutSeparator | src/lib/auth.js:94 | a header with no ';' is one pair |
| Cookies.SinglePair | src/lib/auth.js:91-100 | parseCookies('n=v') maps n to v, whatever '=' v holds |
| Cookies.CookieOr | src/lib/auth.js:102-112 | the named cookie's value, and '' when there is no header or no such cookie |
| Cookies.AuthTokenRoundTrip | src/lib/auth.js:102-106 | a request carrying the cookie createAuthCookie set yields the same token; no header yields '' |
| Env.GetOr | src/lib/env.js:19-22 | the variable's text when it is set, else the default |
| Env.ReadBool | src/lib/env.js:4-6 | 1, true, yes, y and on read as true; 0, false, no, n and off as false; any other word gives the default |
| Env.ToBool | src/lib/env.js:1-7 | an unset or empty variable gives the default; otherwise its lower-cased, trimmed text is read as a boolean word |
| Env.WordsDisjoint | src/lib/env.js:4-5 | no word reads as both true and false |
| Env.ToInt | src/lib/env.js:9-12 | an unset variable gives the default; a result other than the default is parseInt of the trimmed text |
| Env.ToIntReadsIntString | src/lib/env.js:9-12 | a variable holding the decimal text of an integer is read as that integer, whatever the default |
| Env.Must | src/lib/env.js:24-28 | an unset or empty variable is an error naming it; otherwise its text |
| Env.IsProd | src/lib/env.js:32 | production exactly when NODE_ENV is set to 'production' |
| Env.Deprecated | src/lib/env.js:70-75 | a deprecated variable read as a non-zero integer wins; unset, unreadable or 0 gives the fallback |
| Env.IntSetting | src/lib/env.js:67-68 | an unset integer setting gives its default, and one holding an integer's text gives that integer |
| Env.CeilDiv60 | src/lib/env.js:71 | Math.ceil(m / 60): the fewest hours covering m minutes |
| Env.VerificationTtlMs | src/lib/env.js:133-135 | the verification link lives the configured minutes, in milliseconds |
| Env.PasswordResetTtlMs | src/lib/env.js:136-138 | the reset link lives the configured minutes, in milliseconds |
| Env.RevokedPruneCutoff | src/lib/env.js:142-145 | the cutoff lies the configured cleanup days before now |
| Env.DefaultTtls | src/lib/env.js:67-68 | with nothing set, both links live 30 minutes |
| Env.UnsetHours | src/lib/env.js:70-75 | with neither variable set, a deprecated hours setting reads as 30 minutes rounded up: 1 hour |
| Env.DefaultHours | src/lib/env.js:70-75 | with nothing set, both deprecated hour settings read as 1 hour |
| Env.UnsetDeprecated | src/lib/env.js:107-121 | an unset deprecated variable gives its replacement's value |
| Env.DeprecatedOverrides | src/lib/env.js:107-121 | a deprecated variable set to a non-zero integer overrides its replacement; set to 0 it does not |
| Grading.CanonChar | src/utils/grade-attempt.js:40-46 | every character is mapped into the normal alphabet: a-z, 0-9 or a space |
| Grading.Canon | src/utils/grade-attempt.js:40-46 | each character is lower-cased, or replaced by a space when it is not a letter or digit, in place |
| Grading.Squeeze | src/utils/grade-attempt.js:40-46 | collapsing runs of spaces and dropping end spaces never lengthens the text |
| Grading.SqueezeIsNormal | src/utils/grade-attempt.js:40-46 | collapsing runs of spaces and dropping end spaces gives normal form |
| Grading.SqueezeWord | src/utils/grade-attempt.js:40-46 | a leading word is kept, followed by one space only when something follows it after squeezing |
| Grading.SqueezeSpace | src/utils/grade-attempt.js:40-46 | a leading space is dropped |
| Grading.NormalSuffix | src/utils/grade-attempt.js:40-46 | the part of a normal-form text from the start of any word on is itself in normal form |
| Grading.SqueezeNormal | src/utils/grade-attempt.js:40-46 | text already in normal form is left as it is by the space collapsing |
| Grading.CanonNormal | src/utils/grade-attempt.js:40-46 | text already in normal form is left as it is by the character mapping |
| Grading.NormAll | src/utils/grade-attempt.js:52-53 | every blank is normalised in place |
| Grading.FindAnswer | src/utils/grade-attempt.js:29 | a found answer is one of the answers and is for the item; none is found when no answer is for it |
| Grading.KeySlots | src/utils/grade-attempt.js:47-50 | a single key is one slot; a slot list has one slot per entry |
| Grading.TextItemScore | src/utils/grade-attempt.js:47-61 | a text item scores the number of slots its answer matches |
| Grading.ExampleBlanks | src/utils/grade-attempt.js:40-46 | the blanks "Red", "sweet " and "COLD" normalise to red, sweet and cold |
| Grading.TwoOfOneIsTwoHundred | src/utils/grade-attempt.js:106-108 | two correct answers out of one question score 200 |
| Blanks.BlanksSkipPlain | src/utils/grade-attempt.js:93 | text without '[' contributes no blank |
| Blanks.BlanksOneBlank | src/utils/grade-attempt.js:93 | a bracketed blank is read back as its contents |
| Scoring.ScoreSumBounds | src/utils/scoring.js:23 | a sum of n scores each in lo..hi lies between n times lo and n times hi |
| Scoring.MeanBetween | src/utils/scoring.js:24 | the rounded mean of values in lo..hi stays in lo..hi |
| Tokens.StdChars | src/utils/tokens.js:15 | each sextet is written as its standard base64 character |
| Tokens.UrlChars | src/utils/tokens.js:15 | each sextet is written as its URL-safe base64 character |
| Tokens.UrlCharsSafe | src/utils/tokens.js:15 | URL-safe characters hold no '+', '/' or '=' |
| StudentRecords.Reverse | app/api/student/test-records/route.js:32 | the reversed listing has the same length, element i taken from the other end |
| StudentRecords.Ordered | app/api/student/test-records/route.js:32 | the listing in either direction has the same length as the stored rows |
| TutorDashboard.Bands | app/api/tutor/dashboard/summary/route.js:75-111 | no more bands are counted than there are students |
| TutorDashboard.MeanAtLeastOne | app/api/tutor/dashboard/summary/route.js:159 | a sum at least the count gives a mean of at least one |
| FeedbackLevels.LevelError | app/api/tutor/feedback/levels/route.js:70-79 | a level passes exactly when its name is not blank, both scores are present and minScore is not at or above maxScore |
| FeedbackLevels.FirstLevelError | app/api/tutor/feedback/levels/route.js:70-80 | no error exactly when every level passes, and otherwise the error is that of some failing level |
| FeedbackLevels.CheckEachLevel | app/api/tutor/feedback/levels/route.js:70-80 | the loop returns the error of the first failing level, or none |
| FeedbackLevels.NameKeys | app/api/tutor/feedback/levels/route.js:83 | each level's name is compared trimmed and upper-cased |
| FeedbackLevels.Repeats | app/api/tutor/feedback/levels/route.js:84 | the repeats are drawn from the names |
| FeedbackLevels.NoRepeatsIffDistinct | app/api/tutor/feedback/levels/route.js:84-87 | no repeats are found exactly when the names are pairwise different |
| FeedbackLevels.InsertByMin | app/api/tutor/feedback/levels/route.js:90 | inserting a level adds exactly that level |
| FeedbackLevels.SortByMin | app/api/tutor/feedback/levels/route.js:90 | the sorted copy is a permutation of the levels |
| FeedbackLevels.InsertKeepsAscending | app/api/tutor/feedback/levels/route.js:90 | inserting a numeric level keeps a list ascending by minScore |
| FeedbackLevels.SortAscends | app/api/tutor/feedback/levels/route.js:90 | with every score numeric the sorted copy ascends by minScore |
| FeedbackLevels.CheckRanges | app/api/tutor/feedback/levels/route.js:91-102 | the loop over consecutive sorted levels returns the first pair whose next minimum is below the previous maximum plus one |
| FeedbackLevels.RangesPassedApart | app/api/tutor/feedback/levels/route.js:91-102 | once the range check passes, every later level starts above every earlier level's end |
| FeedbackLevels.AcceptedRangesDisjoint | app/api/tutor/feedback/levels/route.js:65-102 | of any two different levels of an accepted numeric list, one ends before the other starts |
| FeedbackLevels.MembersApart | app/api/tutor/feedback/levels/route.js:91-102 | two different members of a list that passed the range check lie apart |
| FeedbackLevels.SortedProper | app/api/tutor/feedback/levels/route.js:70-90 | every entry of the sorted copy of an accepted list has both scores and minScore below maxScore |
| FeedbackLevels.ValidatedParts | app/api/tutor/feedback/levels/route.js:65-102 | an accepted list passed the per-level checks, the duplicate check and the range check |
| FeedbackLevels.SortedMembers | app/api/tutor/feedback/levels/route.js:90 | sorting keeps exactly the same levels |
| FeedbackLevels.AcceptedLevel | app/api/tutor/feedback/levels/route.js:70-80 | every level of an accepted list passed its own checks |
| FeedbackLevels.AcceptedNamesDistinct | app/api/tutor/feedback/levels/route.js:70-87 | accepted names are non-blank and pairwise different ignoring case and surrounding blanks |
| FeedbackLevels.OverlapRejected | app/api/tutor/feedback/levels/route.js:96-100 | two overlapping levels (0-10 and 10-20 included) are rejected naming the second, with the previous max plus one and the previous max |
| FeedbackLevels.LevelRows | app/api/tutor/feedback/levels/route.js:105-131 | rows exist exactly when every score parses, one row per level in the same order |
| FeedbackLevels.InsertKeepsKeysDistinct | app/api/tutor/feedback/levels/route.js:90 | inserting a level with a new key keeps the keys distinct |
| FeedbackLevels.SortKeepsKeysDistinct | app/api/tutor/feedback/levels/route.js:105 | sorting keeps the keys distinct |
| FeedbackLevels.AcceptedBandsDistinct | app/api/tutor/feedback/levels/route.js:83-87 | the saved band names of an accepted list are pairwise different |
| FeedbackLevels.FeedbackKept | app/api/tutor/feedback/levels/route.js:113 | exactly the feedback rows that do not point at a removed band are kept, unchanged |
| FeedbackLevels.Upsert | app/api/tutor/feedback/levels/route.js:119-132 | after an upsert the band's name is indexed to a band holding the row's values; other names keep their ids and no band disappears |
| FeedbackLevels.Removed | app/api/tutor/feedback/levels/route.js:108-110 | the removed bands are exactly those whose name is not incoming |
| FeedbackLevels.UpsertStep | app/api/tutor/feedback/levels/route.js:117-133 | each upsert stores its row and keeps the rows already stored |
| FeedbackLevels.UpsertKeepsIndex | app/api/tutor/feedback/levels/route.js:119-132 | an upsert keeps the unique name index in step with the bands |
| FeedbackLevels.UpsertKeepsOther | app/api/tutor/feedback/levels/route.js:119-132 | an upsert leaves every other name's band as it was |
| FeedbackLevels.UpsertStart | app/api/tutor/feedback/levels/route.js:108-116 | after the deletions the kept bands and their index start the upsert loop |
| FeedbackLevels.UpsertDone | app/api/tutor/feedback/levels/route.js:117-133 | after the last upsert exactly the incoming names are indexed, each to its row |
| FeedbackLevels.KeptIdsStay | app/api/tutor/feedback/levels/route.js:119-125 | a band that was kept keeps its id |
| FeedbackLevels.CheckTemplates | app/api/tutor/feedback/templates/route.js:71-75 | the loop accepts exactly when every template has a non-blank level and a non-empty text |
| FeedbackLevels.LevelKeys | app/api/tutor/feedback/templates/route.js:78 | each template level is compared trimmed and upper-cased |
| FeedbackLevels.Unknown | app/api/tutor/feedback/templates/route.js:87 | the unknown levels are exactly the levels, as sent, that name no band |
| FeedbackLevels.AcceptedTemplate | app/api/tutor/feedback/templates/route.js:66-90 | an accepted template names a band exactly and carries a non-empty text |
| FeedbackLevels.AcceptedTemplateParts | app/api/tutor/feedback/templates/route.js:66-90 | every accepted template names a band, carries a text, and the levels are pairwise different |
| FeedbackLevels.TemplatesOf | app/api/tutor/feedback/templates/route.js:95-107 | one template per input, each pointing at the band its level names |
| FeedbackLevels.AcceptedTemplatesDistinct | app/api/tutor/feedback/templates/route.js:78-90 | accepted templates point at pairwise different bands |
| FeedbackLevels.DistinctKeysDistinctBands | app/api/tutor/feedback/templates/route.js:78-95 | different levels map to different bands |
| FeedbackLevels.IndexInjective | app/api/tutor/feedback/templates/route.js:86 | the unique band index maps different names to different bands |
| FeedbackLevels.KeptForTemplates | app/api/tutor/feedback/templates/route.js:94-101 | exactly the feedback rows whose band is incoming are kept, unchanged |
| FeedbackLevels.PlaceStart | app/api/tutor/feedback/templates/route.js:104 | the kept rows start the template loop |
| FeedbackLevels.PlaceStep | app/api/tutor/feedback/templates/route.js:105-117 | each template either updates an existing row of its band or creates one, keeping what is already placed |
| FeedbackLevels.SameBandSet | app/api/tutor/feedback/templates/route.js:93-119 | with rows only of incoming bands and one for each template, the feedback bands are the template bands |
| FeedbackLevels.TemplatesPlaced | app/api/tutor/feedback/templates/route.js:105-117 | after the loop every template is stored |
| FeedbackLevels.SavedRowsAscend | app/api/tutor/feedback/levels/route.js:105-131 | saved rows ascend by minScore, so order 1..n follows the ranges upwards |
| FeedbackLevels.Listing | app/api/tutor/feedback/levels/route.js:136-148 | the reply lists each saved row with its id and order i + 1 |
| FeedbackLevels.StoredExactly | app/api/tutor/feedback/levels/route.js:106-133 | after the transaction every band is one of the incoming rows |
| FeedbackLevels.FeedbackStore.constructor | app/api/tutor/feedback/levels/route.js:21-23 | the store starts with no bands and no feedback |
| FeedbackLevels.FeedbackStore.ReplaceLevels | app/api/tutor/feedback/levels/route.js:106-134 | exactly the incoming names are stored, each with its values and order; kept bands keep their ids; feedback of removed bands is deleted |
| FeedbackLevels.FeedbackStore.ReplaceTemplates | app/api/tutor/feedback/templates/route.js:93-120 | bands are untouched; exactly the incoming bands have feedback, each template's text is stored, and rows of removed bands are deleted |
| FeedbackLevels.FeedbackStore.PutLevels | app/api/tutor/feedback/levels/route.js:46-158 | 401 without a user, 403 for any role but ADMIN, 400 with the first validation error, a failed write when a score does not parse, otherwise the replaced bands; nothing changes unless saved |
| FeedbackLevels.FeedbackStore.PutTemplates | app/api/tutor/feedback/templates/route.js:47-137 | 401 without a user, 403 for any role but ADMIN, 400 for incomplete, duplicate or unknown levels, otherwise the replaced templates; nothing changes unless saved |
| JsNumber.DigitRun | src/lib/env.js:10 | the run of decimal digits at the start: all digits, and stopping at the first non-digit |
| JsNumber.LeadingDigits | src/lib/env.js:10 | no number exactly when the text does not start with a digit |
| JsNumber.DigitsOfNat | src/lib/env.js:10 | the decimal digits of a number read back as the number |
| JsNumber.DigitRunAppend | src/lib/env.js:10 | the digit run stops exactly where the digits stop |
| JsNumber.LeadingDigitsAppend | src/lib/env.js:10 | digits followed by a non-digit read as the digits' value |
| JsNumber.TrimStartOfNonSpace | src/lib/env.js:10 | text starting with a non-space character has no leading white space to skip |
| JsNumber.ParseIntString | src/lib/env.js:10 | parseInt reads back String(i) for every integer i |
| JsNumber.ParseIntIgnoresTail | app/api/student/test-records/route.js:20 | whatever follows the digits is ignored |
| JsNumber.ParseIntNaN | app/api/student/test-records/route.js:20 | text whose first non-space character is neither a sign nor a digit is NaN |
| JsNumber.ParseIntOne | app/api/student/test-records/route.js:20 | parseInt('1') is 1, the default page |
| JsNumber.ParseIntTen | app/api/student/test-records/route.js:21 | parseInt('10') is 10, the default page size |
| JsNumber.ParseIntUnits | app/api/student/test-records/route.js:20 | parseInt('12px') stops at the first non-digit and gives 12 |
| MediaUpload.AllowedTypes | app/api/media/upload/route.js:44-45 | one allowed type per comma-separated entry of the setting, trimmed and lower-cased |
| MediaUpload.KindOf | app/api/media/upload/route.js:39-41 | a given mediaType decides: IMAGE or AUDIO; without one, an image/ mime is an image and an audio/ mime audio; anything else is refused |
| MediaUpload.Check | app/api/media/upload/route.js:22-67 | a request passes only with a multipart content type, a file, a page or item scope, a target id, an allowed type of its kind, a size within the limit and an existing target, and is then accepted for the owner the scope and target name |
| MediaUpload.SizeLimitInclusive | app/api/media/upload/route.js:55-58 | the size limit is inclusive: a file of exactly the limit passes and one byte more is refused as too large |
| MediaUpload.RowsKeptByRemoval | app/api/media/upload/route.js:81 | deleting rows keeps every other row |
| MediaUpload.RowsKeptByInsert | app/api/media/upload/route.js:90-97 | inserting under a new id keeps every other row |
| MediaUpload.RowsKeptTransitive | app/api/media/upload/route.js:80-97 | keeping rows composes over the delete and the insert |
| MediaUpload.RemoveAsset | app/api/media/upload/route.js:80-81 | deleting one asset of an owner and kind removes just it, and keeps at most one asset per owner and kind |
| MediaUpload.InsertAsset | app/api/media/upload/route.js:90-97 | inserting the asset of an owner and kind that has none makes it the only one, keeping at most one per owner and kind |
| MediaUpload.ReplaceOutcome | app/api/media/upload/route.js:75-97 | at most one asset of the owner and kind is deleted, every other row stays, and the new row, if inserted, is the one asset of its owner and kind |
| MediaUpload.Replace | app/api/media/upload/route.js:69-105 | the insert fails exactly when the reply says so, and then the new object is gone unless its delete fails; otherwise the reply is the new row under a new id; the old asset of the owner and kind is the only row removed |
| MediaUpload.Upload | app/api/media/upload/route.js:10-110 | unauthorized exactly without a user, forbidden exactly for a student, rejected with the check's error exactly when the check fails, writing nothing then; otherwise the replace above, keeping one asset per owner and kind |
| NameCase.FirstSpace | app/api/auth/register/route.js:76 | no index exactly when the text has no white space; otherwise the index of the first white-space character |
| NameCase.RunEnd | app/api/auth/register/route.js:76 | the end of a maximal run of white space: all white space before it and none at it |
| NameCase.SplitWs | app/api/auth/register/route.js:76 | split(/\s+/) gives at least one piece and no piece holds white space |
| NameCase.CapWord | app/api/auth/register/route.js:76 | capitalising a word keeps its length |
| NameCase.CapWords | app/api/auth/register/route.js:76 | every word is capitalised in place |
| NameCase.TitleCase | app/api/auth/register/route.js:76 | the title-cased name never has white space at either end |
| NameCase.CaseKeepsSpace | app/api/auth/register/route.js:76 | upper- or lower-casing never turns a character into white space or back |
| NameCase.CapWordIsWord | app/api/auth/register/route.js:76 | a capitalised word is still free of white space |
| NameCase.CapWordIdempotent | app/api/account/route.js:37 | capitalising a capitalised word changes nothing |
| NameCase.WordsOfTrimmed | app/api/auth/register/route.js:76 | text without white space at its ends splits into non-empty words only |
| NameCase.SplitJoin | app/api/auth/register/route.js:76 | words joined by single spaces split back into the same words |
| NameCase.FirstSpaceAt | app/api/auth/register/route.js:76 | the first white space found is the first one there is |
| NameCase.JoinStartsWithWord | app/api/auth/register/route.js:76 | words joined by single spaces are non-empty and have no white space at either end |
| NameCase.CapWordsAreWords | app/api/auth/register/route.js:76 | capitalised words are still non-empty words |
| NameCase.TitleCaseOfTrimmed | app/api/auth/register/route.js:76 | for trimmed text the result is its capitalised words joined by single spaces, and splitting it gives those words back |
| NameCase.CapWordsIdempotent | app/api/account/route.js:37 | capitalising every word twice is capitalising once |
| NameCase.TitleCaseNonEmpty | app/api/auth/register/route.js:80 | a non-empty trimmed name stays non-empty |
| NameCase.TitleCaseIdempotent | app/api/account/route.js:44 | title-casing an already title-cased name changes nothing |
| Ordering.StrLtIrreflexive | app/api/student/test-records/route.js:100 | no name sorts strictly before itself |
| Ordering.StrLtTransitive | app/api/student/test-records/route.js:100 | the name order is transitive |
| Ordering.StrLtTotal | app/api/student/test-records/route.js:100 | any two different names are ordered one way or the other |
| Ordering.StrLtAsymmetric | app/api/student/test-records/route.js:100 | two names are never each before the other |
| Ordering.InsertName | app/api/student/test-records/route.js:100 | inserting a new name into a sorted list keeps it sorted and adds exactly that name |
| Ordering.SortNames | app/api/tutor/dashboard/summary/route.js:161 | the sorted names are in strictly increasing order and are a permutation of the input |
| Ordering.SortedUnique | app/api/student/test-records/route.js:183 | two sorted lists of the same names are equal |
| Ordering.SortNamesOfSameNames | app/api/student/test-records/route.js:183 | the sorted result depends only on which names there are, not on the order they arrived in |
| RateLimit.FirstEntry | src/middleware/rate-limit.js:10 | the first comma-separated entry: a prefix of the header, free of commas, ending at the first comma |
| RateLimit.ClientIp | src/middleware/rate-limit.js:7-19 | the trimmed first x-forwarded-for entry when it is not blank, else cf-connecting-ip, else x-real-ip, else 'unknown' |
| RateLimit.WindowIndex | src/middleware/rate-limit.js:26 | the window index is the one whose span holds the instant |
| RateLimit.CeilSeconds | src/middleware/rate-limit.js:55 | the reset header is the smallest whole number of seconds not below the reset instant |
| RateLimit.Pruned | src/middleware/rate-limit.js:30-37 | pruning removes exactly this limiter's windows that started more than three windows ago and leaves the rest as they were |
| RateLimit.NextCounts | src/middleware/rate-limit.js:40-43 | each check raises the client's counter in the current window by exactly one |
| RateLimit.NextKeepsOthers | src/middleware/rate-limit.js:28-38 | windows of other limiters are untouched, and a window of this limiter disappears only when stale |
| RateLimit.RepeatCounts | src/middleware/rate-limit.js:40-46 | n checks in one window raise the client's counter by n, so at most max requests of a window pass |
| RateLimit.NextKeepsResets | src/middleware/rate-limit.js:41 | every counter resets at the end of its own window, before and after each check |
| RateLimit.Limiter.Check | src/middleware/rate-limit.js:23-58 | the store becomes the next store; the client's counter rises by one; ok exactly when it stays within max; remaining is max minus the count, never below 0; the reset stays fixed for the window and is its end; the headers repeat these numbers |
| RateLimit.Limiter.constructor | src/middleware/rate-limit.js:1 | the process starts with no windows |
| Reports.AttemptRowOf | app/api/student/test-records/route.js:36-47 | the loaded attempt row carries the stored attempt's id, score, completion time and name snapshots |
| Reports.CatName | app/api/student/test-records/route.js:81 | a null or empty category name files the attempt under 'Uncategorized'; any other name is kept; never empty |
| Reports.RoundCents | app/api/student/test-records/route.js:99 | Math.round(x * 100) / 100 lies within half a cent of x |
| Reports.RoundCentsOfInt | app/api/student/test-records/route.js:99 | a whole score is left as it is |
| Reports.CeilDiv | app/api/student/test-records/route.js:207 | Math.ceil(total / pageSize): zero pages for no rows, else the fewest pages that hold them all |
| Reports.SkipTake | app/api/student/test-records/route.js:33-34 | skip/take returns at most take rows, exactly take when enough remain, each the row skip places further on |
| Reports.PageOfPosition | app/api/student/test-records/route.js:33-34 | row k is found on page k / size + 1 at position k % size |
| Reports.PageWithinCount | app/api/student/test-records/route.js:207 | that page is one of the totalPages reported |
| Reports.CatNames | app/api/student/test-records/route.js:81 | the category each attempt is filed under, in order |
| Reports.ScoreOfAbsentCategory | app/api/student/test-records/route.js:80-86 | a category no attempt is filed under sums to 0 |
| Reports.CategoryTotalsStep | app/api/student/test-records/route.js:80-86 | one more attempt adds its score, null as 0, to its own category only, creating it at 0 on first use |
| Reports.SumByCategory | app/api/student/test-records/route.js:80-86 | the loop builds one entry per category name that occurs, holding the sum of the scores filed under it |
| Reports.LatestDate | app/api/student/test-records/route.js:92-95 | the reduce from new Date(0) gives the latest completion time: never before the epoch or any attempt's, and the epoch or one of the attempts' times |
| RequireAuth.FailureStatus | src/middleware/require-auth.js:7-18 | every rejection is a 401 |
| RequireAuth.RequireAuth | src/middleware/require-auth.js:24-34 | 'Not authenticated' exactly when there is no token, 'Invalid token' exactly when it does not verify to a payload with a subject, otherwise the verified payload |
| RequireAuth.RequireAuthAndSession | src/middleware/require-auth.js:4-22 | requireAuth's rejections pass through; tutors and admins in any letter case are admitted as requireAuth admits them; everyone else also needs validateSession to pass, and a session error keeps its message and code |
| RequireAuth.SessionCheckOnlyNarrows | src/middleware/require-auth.js:13-20 | whatever requireAuthAndSession admits, requireAuth admits with the same payload, and for staff the two agree |
| RequireAuth.LowerCaseTutorSkips | src/middleware/require-auth.js:14-15 | a lower-case tutor role skips the session check too |
| Sanitize.RemoveTags | src/utils/sanitize.js:5 | removing tags never lengthens the text, keeps only characters of the input, and leaves no '<' followed later by a '>' |
| Sanitize.TagRemoved | src/utils/sanitize.js:5 | a complete tag at the front disappears with everything inside it |
| Sanitize.RemoveTagsOfTagless | src/utils/sanitize.js:5 | text without tags comes back unchanged |
| Sanitize.RemoveTagsIdempotent | src/utils/sanitize.js:5 | removing tags twice is removing them once |
| Sanitize.ReplaceAllAbsent | src/utils/sanitize.js:7-12 | a global replace leaves text without the pattern alone |
| Sanitize.ReplaceAllFront | src/utils/sanitize.js:7-12 | an occurrence at the front is replaced once and the scan goes on after it |
| Sanitize.StripHtml | src/utils/sanitize.js:1-14 | null and undefined come back as they are; text comes back without surrounding white space |
| Sanitize.PlainTextIsTrimmed | src/utils/sanitize.js:1-14 | text with no '<' and no '&' is only trimmed |
| Sanitize.EntityAbsent | src/utils/sanitize.js:7-12 | text without '&' holds no entity, so decoding leaves it alone |
| Sanitize.LoneAmpersand | src/utils/sanitize.js:7-12 | a lone '&' that does not start the entity is left alone |
| Sanitize.EntityInFront | src/utils/sanitize.js:7-12 | an entity at the front followed by text without '&' is decoded once |
| Sanitize.EscapedEntityStops | src/utils/sanitize.js:8-10 | '&amp;lt;' decodes to '&lt;' and no further, because &lt; is decoded before &amp; |
| Sanitize.DecodeEscapedLt | src/utils/sanitize.js:7-12 | the six passes turn '&amp;lt;' into '&lt;' |
| Sanitize.EscapedQuoteDecodes | src/utils/sanitize.js:10-11 | '&amp;quot;' decodes all the way to '"', because &quot; is decoded after &amp; |
| Sanitize.DecodeEscapedQuot | src/utils/sanitize.js:7-12 | the six passes turn '&amp;quot;' into '"' |
| Sanitize.PlainPrefix | src/utils/sanitize.js:7-12 | text without '&' passes through a decoding pass untouched |
| Sanitize.ReplaceAllShort | src/utils/sanitize.js:7-12 | text shorter than the entity is left alone |
| Sanitize.SkipEntity | src/utils/sanitize.js:7-12 | an entity other than the one being decoded is stepped over |
| Sanitize.EscapedTagSurvives | src/utils/sanitize.js:5-13 | an escaped tag is not a tag when tags are removed, so it comes out as a tag |
| Sanitize.DecodeEscapedTag | src/utils/sanitize.js:7-12 | the six passes turn '&lt;u&gt;' into '<u>' |
| SessionValidator.IsSessionValid | src/middleware/session-validator.js:5-44 | invalid without a user id, without a token timestamp, for an unknown user or a failing lookup; valid for a user who never logged in; otherwise valid exactly when the stored login is at most one second after the token's |
| SessionValidator.Status | src/middleware/session-validator.js:50-63 | every session error is a 401 |
| SessionValidator.Code | src/middleware/session-validator.js:59-62 | only the newer-login rejection carries the SESSION_INVALIDATED code |
| SessionValidator.ValidateSession | src/middleware/session-validator.js:48-67 | 'Invalid token' exactly when the subject or login time is missing; SESSION_INVALIDATED exactly when both are present but the session is not valid; no error exactly when isSessionValid holds |
| SessionValidator.TokenOfCurrentLoginValid | src/middleware/session-validator.js:31-39 | a token issued for the stored login time, or up to one second before it, is accepted |
| SessionValidator.TokenOfEarlierLoginInvalid | src/middleware/session-validator.js:34-36 | a token from a login more than one second before the stored one is rejected |
| SessionValidator.ValidityMonotone | src/middleware/session-validator.js:35 | a later token timestamp never turns a valid session invalid |
| StudentDashboard.OrUnknown | app/api/student/dashboard/summary/route.js:51-52 | a null or empty title or category name shows as 'Unknown', any other is kept |
| StudentDashboard.RecentView | app/api/student/dashboard/summary/route.js:47-53 | a recent attempt keeps its id and completion time; a null score shows as 0 and a whole score is unchanged by the rounding |
| StudentDashboard.Recent | app/api/student/dashboard/summary/route.js:34-53 | at most three rows, the first three attempts of the newest-first list, in order |
| StudentDashboard.RecentAreNewest | app/api/student/dashboard/summary/route.js:36-37 | loaded newest first, every recent attempt was completed no earlier than any attempt left out |
| StudentDashboard.BestOfCategory | app/api/student/dashboard/summary/route.js:61-66 | the best score of a category is at least 0 and every score filed under it, and is 0 or one of those scores |
| StudentDashboard.BestFoldKeys | app/api/student/dashboard/summary/route.js:61-66 | the Map has a key exactly for each category name some attempt is filed under |
| StudentDashboard.BestFoldValue | app/api/student/dashboard/summary/route.js:62-65 | each key holds its category's best score: a new entry starts at Math.max(score, 0), a later one keeps the larger |
| StudentDashboard.BestFoldNames | app/api/student/dashboard/summary/route.js:61-66 | the Map's keys in insertion order are the distinct category names in first-seen order |
| StudentDashboard.BestFoldMeaning | app/api/student/dashboard/summary/route.js:61-66 | the fold over all attempts is exactly the table of best scores per category |
| StudentDashboard.BestByCategory | app/api/student/dashboard/summary/route.js:61-66 | the loop computes the fold: one key per category name, in first-seen order, each holding that category's best |
| StudentDashboard.CategoriesBest | app/api/student/dashboard/summary/route.js:68-71 | one entry per distinct category name, in first-seen order, with its best score |
| StudentDashboard.ActiveRecordIndex | app/api/student/dashboard/summary/route.js:108-127 | none only without records; otherwise the first of the five newest records with a completed attempt, and the newest record when none of the five has one |
| StudentDashboard.FirstCompleted | app/api/student/dashboard/summary/route.js:120 | the first record from a position on, among the first five, that has a completed attempt |
| StudentDashboard.HasCompletedRecord | app/api/student/dashboard/summary/route.js:166-186 | true exactly when something is published and one of the 25 newest records spans at least as many categories as are published |
| StudentDashboard.AllCompleteByCountOnly | app/api/student/dashboard/summary/route.js:163 | allComplete compares counts only: a record whose one category came from a package since moved to draft counts as complete although it misses the published category |
| StudentDashboard.CoverageImpliesAllComplete | app/api/student/dashboard/summary/route.js:163 | a record covering every published category is always reported complete |
| StudentDashboard.BestBand | app/api/student/dashboard/summary/route.js:203-213 | null exactly when no record has an average |
| StudentDashboard.OverallNotAboveBest | app/api/student/dashboard/summary/route.js:191-213 | the rounded mean of the record averages never exceeds the rounded best average |
| StudentDashboard.MeanNotAboveMax | app/api/student/dashboard/summary/route.js:197-212 | Math.round of a mean is at most Math.round of the maximum |
| StudentDashboard.LatestLive | app/api/student/dashboard/summary/route.js:90-106 | the chosen session is running (unexpired, attempt not completed) and has the latest activity of all running ones; none only when no session is running |
| StudentDashboard.SessionView | app/api/student/dashboard/summary/route.js:235-240 | the shown session keeps its attempt id and is marked expired exactly when it expired before now |
| StudentDashboard.StudentDashboard | app/api/student/dashboard/summary/route.js:8-246 | user not found exactly when the user row is missing; otherwise at most three recent attempts, one status per listed category, the record count, an active record exactly when a record exists, allComplete only when some category is listed, a shown session never expired, and overallBest 0 without a best band |
| StudentRecords.PageParam | app/api/student/test-records/route.js:20 | the page is at least 1, and NaN exactly when parseInt of the parameter (or '1') is NaN |
| StudentRecords.PageSizeParam | app/api/student/test-records/route.js:21 | the page size lies in 1..50, and NaN exactly when parseInt of the parameter (or '10') is NaN |
| StudentRecords.DefaultParams | app/api/student/test-records/route.js:20-21 | without parameters the route serves page 1 of 10 records |
| StudentRecords.Listed | app/api/student/test-records/route.js:24-31 | exactly the records holding a completed attempt, in creation order |
| StudentRecords.IndexOfId | app/api/student/test-records/route.js:70-73 | the first position holding a record with this id, or none when no record has it |
| StudentRecords.AttemptNumber | app/api/student/test-records/route.js:76 | the record's number is at least 1 |
| StudentRecords.AttemptNumbering | app/api/student/test-records/route.js:60-76 | with distinct ids the records are numbered 1, 2, ... in creation order |
| StudentRecords.SortedCategoryNames | app/api/student/test-records/route.js:98-100 | the category names that occur, each once, in strictly ascending order |
| StudentRecords.Categories | app/api/student/test-records/route.js:79-100 | one entry per category name that occurs, in name order, each holding the total score filed under it |
| StudentRecords.CategoryRows | app/api/student/test-records/route.js:79-100 | rows built from the sorted names and the totals are in name order, one per category, each with its total |
| StudentRecords.Summary | app/api/student/test-records/route.js:75-116 | the record's id, its title from its number, its attempt count, its latest completion time, its average to the cent, and the id of its last attempt when it has one |
| StudentRecords.Candidates | app/api/student/test-records/route.js:121-141 | exactly the records with a completed attempt and a non-null average |
| StudentRecords.BestUnique | app/api/student/test-records/route.js:143-160 | at most one candidate is the best |
| StudentRecords.BeatsTransitive | app/api/student/test-records/route.js:151-153 | displacing the best record is transitive |
| StudentRecords.BeatsTie | app/api/student/test-records/route.js:151-153 | two records neither of which displaces the other are displaced by the same records |
| StudentRecords.BestStep | app/api/student/test-records/route.js:147-160 | one more candidate becomes the best exactly when it displaces the best so far |
| StudentRecords.BestIndex | app/api/student/test-records/route.js:143-160 | none exactly without candidates; otherwise the best: the earliest candidate with the highest average, and among equal averages the most categories |
| StudentRecords.PickBest | app/api/student/test-records/route.js:143-160 | the loop picks the best candidate as defined above |
| StudentRecords.FirstLatest | app/api/student/test-records/route.js:186-190 | the first attempt with the latest completion time |
| StudentRecords.BestOf | app/api/student/test-records/route.js:162-200 | the best record's id, title, average to the cent, and the id of its first attempt with the latest completion time |
| StudentRecords.PageRecords | app/api/student/test-records/route.js:25-116 | at most pageSize records, the ones skip places further on in the requested order, each with that record's id and the title 'Attempt n' of its number n |
| StudentRecords.PageRecordAt | app/api/student/test-records/route.js:25-116 | the i-th record of a page is the full summary of the record skip + i places into the requested order, with its number |
| StudentRecords.Summaries | app/api/student/test-records/route.js:75-116 | one summary per shown record, in order, each with the record's id and its numbered title |
| StudentRecords.SummariesAt | app/api/student/test-records/route.js:75-116 | the i-th summary is the full summary of the i-th shown record |
| StudentRecords.BestScore | app/api/student/test-records/route.js:118-202 | present exactly on page 1 when some record has a completed attempt and an average, and then the best candidate's summary |
| StudentRecords.StudentTestRecords | app/api/student/test-records/route.js:6-213 | a NaN page or size fails the query; otherwise the clamped page and size, at most pageSize records, the total of listed records, the page count, and a best score exactly on page 1 when a candidate exists |
| StudentRecords.PageEntry | app/api/student/test-records/route.js:25-116 | the i-th record of a page is the record skip + i in the requested order, and its number (so its title 'Attempt k') is its place k in creation order, counted from the other end when descending |
| StudentRecords.OrderedNumber | app/api/student/test-records/route.js:60-76 | in either direction the record at position k is numbered by its place in creation order |
| StudentRecords.ListedDistinct | app/api/student/test-records/route.js:24-31 | the listing keeps ids distinct |
| StudentRecords.BestHasHighestAverage | app/api/student/test-records/route.js:143-160 | no candidate has a higher average than the best |
| Tokens.Sextets | src/utils/tokens.js:15 | one to three bytes give one more 6-bit group than bytes, each below 64 |
| Tokens.Base64UrlUnpadded | src/utils/tokens.js:14-16 | the reference encoding of section 5 of RFC 4648 without padding: ceil(4n / 3) characters for n bytes |
| Tokens.ToUrlAlphabet | src/utils/tokens.js:15 | '+' becomes '-' and '/' becomes '_', every other character stays where it is |
| Tokens.DropTrailingPadding | src/utils/tokens.js:15 | exactly the run of '=' at the end is removed |
| Tokens.UrlCharIsSafe | src/utils/tokens.js:15 | no character of the URL alphabet is '+', '/' or '=' |
| Tokens.ToUrlOfStd | src/utils/tokens.js:15 | rewriting the standard characters gives the URL alphabet's characters |
| Tokens.DropPadding | src/utils/tokens.js:15 | padding after text that does not end in '=' is exactly what is dropped |
| Tokens.PaddingPeriodic | src/utils/tokens.js:15 | the padding depends only on the byte count modulo 3 |
| Tokens.RewrittenIsUrlPadded | src/utils/tokens.js:15 | standard Base64 with the two characters rewritten is the URL-safe encoding followed by its padding |
| Tokens.UnpaddedIsSafe | src/utils/tokens.js:15 | the URL-safe encoding holds no '+', '/' or '=' |
| Tokens.Base64UrlEncodeIsUnpadded | src/utils/tokens.js:14-16 | base64UrlEncode is the unpadded URL-safe encoding of section 5 of RFC 4648, URL-safe and ceil(4n / 3) characters long |
| Tokens.GenerateTokenPair | src/utils/tokens.js:3-8 | the token is the URL-safe encoding of the random bytes and the stored hash is the digest of the token |
| Tokens.DefaultTokenShape | src/utils/tokens.js:3-8 | the default 32 bytes give a 43-character URL-safe token |
| TutorDashboard.FirstWord | app/api/tutor/dashboard/summary/route.js:50 | split(/\s+/)[0]: the longest prefix without white space, stopping at the first white space |
| TutorDashboard.Nickname | app/api/tutor/dashboard/summary/route.js:50 | the greeting is never empty and holds no white space ('Tutor' when the name gives none) |
| TutorDashboard.NicknameOfOneWord | app/api/tutor/dashboard/summary/route.js:50 | a one-word name is greeted as it is |
| TutorDashboard.FirstWordStopsAtSpace | app/api/tutor/dashboard/summary/route.js:50 | the first word ends at the first white space: "Ana Maria" greets Ana |
| TutorDashboard.NullIfZero | app/api/tutor/dashboard/summary/route.js:56-57 | null exactly for a zero count, else the count |
| TutorDashboard.BandsStep | app/api/tutor/dashboard/summary/route.js:85-88 | one more student adds the rounded best average when it is positive, and nothing otherwise |
| TutorDashboard.FreqStepNew | app/api/tutor/dashboard/summary/route.js:89-90 | a band seen for the first time enters the table last, with frequency 1 |
| TutorDashboard.FreqStepSeen | app/api/tutor/dashboard/summary/route.js:89-90 | a band seen before has its frequency raised by one |
| TutorDashboard.BandFrequencies | app/api/tutor/dashboard/summary/route.js:84-91 | the loop builds the frequency of every counted band, with the keys in first-seen order |
| TutorDashboard.ModeUnique | app/api/tutor/dashboard/summary/route.js:95-108 | the mode with ties going to the highest band is unique |
| TutorDashboard.ModeOfKeys | app/api/tutor/dashboard/summary/route.js:95-108 | none only without keys; otherwise a key whose frequency no key beats, and the highest among equal frequencies |
| TutorDashboard.PickMode | app/api/tutor/dashboard/summary/route.js:95-108 | the loop over the Map's entries picks that key |
| TutorDashboard.ModeOfTable | app/api/tutor/dashboard/summary/route.js:93-110 | the mode over the frequency table is the mode of the counted bands |
| TutorDashboard.MostCommonBand | app/api/tutor/dashboard/summary/route.js:75-111 | none exactly when no student has a positive best average; otherwise the most frequent band, ties to the highest |
| TutorDashboard.MostCommonBandScore | app/api/tutor/dashboard/summary/route.js:75-111 | 'N/A' exactly when no band is counted, else the mode as decimal text |
| TutorDashboard.NotApplicableIsNoNumber | app/api/tutor/dashboard/summary/route.js:110 | 'N/A' cannot be mistaken for a band |
| TutorDashboard.ClassNames | app/api/tutor/dashboard/summary/route.js:125-137 | the category names of the counted attempts, in order |
| TutorDashboard.ClassNamesMembers | app/api/tutor/dashboard/summary/route.js:125-137 | a name is listed exactly when some completed, named attempt with a positive score carries it |
| TutorDashboard.ClassCountPositive | app/api/tutor/dashboard/summary/route.js:145-153 | a category has counted scores exactly when its name is listed |
| TutorDashboard.ClassSumAtLeastCount | app/api/tutor/dashboard/summary/route.js:129 | with every counted score at least 1, a category's sum is at least its count |
| TutorDashboard.AggFoldKeys | app/api/tutor/dashboard/summary/route.js:145-153 | the table gets an entry for a name exactly when a counted attempt carries that name |
| TutorDashboard.AggFoldValue | app/api/tutor/dashboard/summary/route.js:146-153 | each entry holds the sum and the number of its category's counted scores; the first attempt opens it at count 1, later ones add |
| TutorDashboard.AggFoldNames | app/api/tutor/dashboard/summary/route.js:148-150 | a name joins the key order only at its category's first counted attempt, so the keys are the distinct names in first-seen order |
| TutorDashboard.AggFoldMeaning | app/api/tutor/dashboard/summary/route.js:145-153 | the fold over all attempts is exactly the per-category table of sums and counts |
| TutorDashboard.ClassSumOfAbsent | app/api/tutor/dashboard/summary/route.js:145-153 | a name no counted attempt carries sums to 0 |
| TutorDashboard.AggregateByCategory | app/api/tutor/dashboard/summary/route.js:145-153 | the loop computes the fold: per category name in first-seen order, the sum and the number of its counted scores |
| TutorDashboard.CategoryAverage | app/api/tutor/dashboard/summary/route.js:157-159 | a category's rounded mean score is at least 1 |
| TutorDashboard.SortedClassNames | app/api/tutor/dashboard/summary/route.js:161 | the counted category names, each once, in strictly ascending order |
| TutorDashboard.ClassCategories | app/api/tutor/dashboard/summary/route.js:156-161 | one entry per counted category, in name order, each with its rounded mean |
| TutorDashboard.AvgSumAtLeast | app/api/tutor/dashboard/summary/route.js:165-167 | every category mean is at least 1, so their sum is at least their number |
| TutorDashboard.ComputeClassPerformance | app/api/tutor/dashboard/summary/route.js:122-180 | a failure gives no categories, average 0 and 0 students; no counted attempt gives no categories and average 0; otherwise the name-ordered means of every counted category and an overall average of at least 1, always with the student count |
| TutorDashboard.TutorDashboardSummary | app/api/tutor/dashboard/summary/route.js:5-67 | unauthorized exactly without a user, forbidden exactly for a student; otherwise the nickname and this month's active students and scored records, each null exactly when zero |
| TutorPreview.PreviewOrder | app/api/tutor/students/preview/route.js:49-119 | one stats row per considered student |
| TutorPreview.Considered | app/api/tutor/students/preview/route.js:23-46 | the first 200 students loaded, or all of them when there are fewer |
| TutorPreview.PreviewOrderSorted | app/api/tutor/students/preview/route.js:111-119 | the sorted list is most recent first, best average next, and holds the stats of exactly the considered students |
| TutorPreview.PreviewOf | app/api/tutor/students/preview/route.js:121 | the first five rows of the sorted list, or all of them when there are fewer |
| TutorPreview.StudentsPreview | app/api/tutor/students/preview/route.js:5-131 | unauthorized exactly without a user, forbidden exactly for a student, and otherwise the five rows above |
| TutorPreview.ShownBeforeHidden | app/api/tutor/students/preview/route.js:111-121 | no student left out was active later than one shown |
| TutorPreview.FirstIsMostRecent | app/api/tutor/students/preview/route.js:111-121 | the first row shown has the latest activity of all considered students |
| TutorRecords.Completed | app/api/tutor/test-records/route.js:63-64 | exactly the attempts with a completion time, in order |
| TutorRecords.SelectedRecords | app/api/tutor/test-records/route.js:30-44 | exactly the records with a completed attempt whose student matches the search, when one is given |
| TutorRecords.SelectedKeepsOrder | app/api/tutor/test-records/route.js:75 | selecting keeps the records newest first |
| TutorRecords.TitleOrNull | app/api/tutor/test-records/route.js:97 | a non-empty package title is kept, any other becomes null |
| TutorRecords.LatestExists | app/api/tutor/test-records/route.js:93-99 | a category has an entry exactly when some attempt is filed under it |
| TutorRecords.LatestIsLastOfMax | app/api/tutor/test-records/route.js:93-99 | the entry comes from the last of the category's attempts with the latest completion time |
| TutorRecords.LatestAttempt | app/api/tutor/test-records/route.js:101-104 | no attempt is picked exactly when there is none |
| TutorRecords.Advance | app/api/tutor/test-records/route.js:101-104 | after any attempt something is held |
| TutorRecords.LatestAttemptStep | app/api/tutor/test-records/route.js:101-104 | the pick over one more attempt is one step of the loop |
| TutorRecords.LatestAttemptIsLastOfMax | app/api/tutor/test-records/route.js:101-110 | with completion times after the epoch, the attempt picked is the last one with the latest completion time, which is the reduce's date |
| TutorRecords.EpochIsFalsy | app/api/tutor/test-records/route.js:101 | a held time of exactly 0 is falsy, so an earlier attempt from before 1970 takes over |
| Reports.CatNamesMembers | app/api/tutor/test-records/route.js:87 | a name is among the category names, and among the distinct ones, exactly when an attempt is filed under it |
| TutorRecords.TallyKeys | app/api/tutor/test-records/route.js:86-99 | categoryScores and categoryLatest get a key exactly for the categories the attempts are filed under |
| TutorRecords.TallyScore | app/api/tutor/test-records/route.js:87-91 | each categoryScores entry is the sum of its category's scores, a null score counting as 0 |
| TutorRecords.TallyLatest | app/api/tutor/test-records/route.js:93-99 | each categoryLatest entry is its category's latest completion, replaced by any attempt completed no earlier |
| TutorRecords.TallyNames | app/api/tutor/test-records/route.js:90 | the keys of categoryScores in insertion order are the distinct category names in first-seen order |
| TutorRecords.TallyPick | app/api/tutor/test-records/route.js:101-104 | latestCompletedAt and latestAttemptId follow the reference pick, falsy-zero test included |
| TutorRecords.TallyMeaning | app/api/tutor/test-records/route.js:81-105 | after the loop the tables are exactly the per-category sums, latest entries, names and the pick |
| TutorRecords.SummariseAttempts | app/api/tutor/test-records/route.js:81-105 | the loop computes the tally: per-category sums in first-seen name order, each category's latest entry, and the latest attempt |
| TutorRecords.CategoryEntries | app/api/tutor/test-records/route.js:145-149 | one entry per distinct category, in first-seen order |
| TutorRecords.EntriesCoverCategories | app/api/tutor/test-records/route.js:145-149 | every category an attempt is filed under has exactly one entry |
| TutorRecords.CategoriesTotal | app/api/tutor/test-records/route.js:112-134 | never below the categories completed, and the published count when that is higher and the record is the student's newest |
| TutorRecords.FeedbackOrNull | app/api/tutor/test-records/route.js:142 | an empty or missing feedback becomes null, any other is sent as it is |
| TutorRecords.FlaggedFeedbackIsSent | app/api/tutor/test-records/route.js:142-143 | feedback flagged present is always sent; blanks-only feedback is sent but not flagged |
| TutorRecords.RecordViewFacts | app/api/tutor/test-records/route.js:136-152 | a view keeps the record's id and student, completes as many categories as it lists, at most its total, the published count for the newest record, one entry per category that occurs, and its latest attempt |
| TutorRecords.EntriesNameCategories | app/api/tutor/test-records/route.js:145-149 | the entries name exactly the categories the attempts are filed under |
| TutorRecords.PickIsLatest | app/api/tutor/test-records/route.js:101-104 | an attempt is picked exactly when one was completed, and with no completion before 1970 it is one completed at the reported completedAt |
| TutorRecords.BuildEntries | app/api/tutor/test-records/route.js:145-149 | the entries read from the loop's tables are the reference entries |
| TutorRecords.EntryFromTables | app/api/tutor/test-records/route.js:145-149 | a listed category's entry read from categoryScores and categoryLatest is its reference entry |
| TutorRecords.SummariseRecord | app/api/tutor/test-records/route.js:80-153 | the callback computes the reference view of the record |
| TutorRecords.SummariseRecords | app/api/tutor/test-records/route.js:80-153 | one view per loaded record, in order |
| TutorRecords.Paging | app/api/tutor/test-records/route.js:24-28 | skip and take as the query accepts them: both numbers, take not negative and skip not negative |
| TutorRecords.PagingAccepts | app/api/tutor/test-records/route.js:24-28 | page 1 or more with a size of 0 or more is accepted; a page below 1 with a positive size is rejected |
| TutorRecords.RecordsPageOf | app/api/tutor/test-records/route.js:46-166 | the page and size as parsed, the total of selected records, the page count, and at most pageSize views, the records skip places further on |
| TutorRecords.Views | app/api/tutor/test-records/route.js:80-153 | one view per record, in order |
| TutorRecords.TutorTestRecords | app/api/tutor/test-records/route.js:5-171 | unauthorized exactly without a user, forbidden exactly for a student, a failed load exactly when the query rejects the paging, and otherwise the page above |
| TutorRecords.DefaultPaging | app/api/tutor/test-records/route.js:24-28 | without parameters the route serves page 1 of 10 from the first record |
| TutorStudents.Matching | app/api/tutor/students/route.js:31-38 | exactly the students whose name or email contains the search, case-insensitively, when one is given, in loaded order |
| TutorStudents.ScoredRecords | app/api/tutor/students/route.js:69-70 | exactly the records carrying an average |
| TutorStudents.KeyOf | app/api/tutor/students/route.js:90-92 | a record's comparison key has a category count of at least 0 and a creation time |
| TutorStudents.Keys | app/api/tutor/students/route.js:89-92 | one key per record, in order |
| TutorStudents.AtMostTransitive | app/api/tutor/students/route.js:94-98 | the order the loop's comparison induces is transitive |
| TutorStudents.BestKeyIsMaximum | app/api/tutor/students/route.js:85-105 | the key the loop ends with is at least the start key and at least every record's key: the highest average, then the most categories, then the latest creation |
| TutorStudents.BestKeyAttained | app/api/tutor/students/route.js:85-105 | that key is the start key or the key of one of the records |
| TutorStudents.PickBestKey | app/api/tutor/students/route.js:85-105 | the loop's three variables end holding that key |
| TutorStudents.BestAverageScore | app/api/tutor/students/route.js:119 | null unless some average is positive; otherwise the highest average of the student's records |
| TutorStudents.CompletionTimes | app/api/tutor/students/route.js:47-51 | exactly the completion times of the completed attempts with a positive score |
| TutorStudents.LatestOf | app/api/tutor/students/route.js:108-113 | null exactly without times; otherwise the latest of them |
| TutorStudents.LatestCompletion | app/api/tutor/students/route.js:108-113 | the lastUpdate loop computes that latest time |
| TutorStudents.ComputeStat | app/api/tutor/students/route.js:65-123 | one student's stats: id, name, email, best average, number of scored records, lastUpdate |
| TutorStudents.PrecedesAsymmetric | app/api/tutor/students/route.js:128-142 | the comparator never puts two rows each before the other |
| TutorStudents.NotPrecedesTransitive | app/api/tutor/students/route.js:128-142 | not coming before is transitive: the comparator is a weak order |
| TutorStudents.Insert | app/api/tutor/students/route.js:128-142 | inserting a row into a sorted list keeps it sorted and adds exactly that row |
| TutorStudents.SortStats | app/api/tutor/students/route.js:128-142 | filtered.sort gives a sorted rearrangement of the rows |
| TutorStudents.UnsortableKeepsOrder | app/api/tutor/students/route.js:129-141 | sorting by a field no row has leaves the list in loaded order |
| TutorStudents.SliceIndex | app/api/tutor/students/route.js:147 | slice's index is clamped into the list |
| TutorStudents.JsSlice | app/api/tutor/students/route.js:147 | a slice is never longer than the list |
| TutorStudents.SliceFromStart | app/api/tutor/students/route.js:147 | slice(0, n) is the first n rows, or all of them when there are fewer |
| TutorStudents.PageSlice | app/api/tutor/students/route.js:146-147 | a NaN page or size gives no rows |
| TutorStudents.PageSliceIsPage | app/api/tutor/students/route.js:146-147 | a page and a size of at least 1 give the page they name |
| TutorStudents.PageZeroEmpty | app/api/tutor/students/route.js:146-147 | page 0 is always empty |
| TutorStudents.NegativePageFromEnd | app/api/tutor/students/route.js:146-147 | a negative page counts from the end: page -1 of 10 over 25 rows holds rows 5 to 14 |
| TutorStudents.JsTotalPages | app/api/tutor/students/route.js:158 | Math.ceil(total / pageSize) for a positive size; not a finite number for a zero or NaN size |
| TutorStudents.StatsOf | app/api/tutor/students/route.js:65-123 | one stats row per student, in order |
| TutorStudents.StudentsPageOf | app/api/tutor/students/route.js:125-160 | the page and size as parsed, the number of matching students, at most that many rows, and the page count |
| TutorStudents.ComputeStats | app/api/tutor/students/route.js:65-123 | the loop computes every matching student's stats, in order |
| TutorStudents.ListStudents | app/api/tutor/students/route.js:5-165 | unauthorized exactly without a user, forbidden exactly for a student, and otherwise the page above |
| TutorStudents.ListedOnItsPage | app/api/tutor/students/route.js:125-147 | every matching student sits at one place of the sorted list and is found on the page that place names |
| TutorStudents.SortedPosition | app/api/tutor/students/route.js:128-142 | every matching student's stats appear in the sorted list |
| TutorStudents.OnPage | app/api/tutor/students/route.js:146-147 | row k is on page k / size + 1 at position k % size |

## Left out

- The database engine: isolation levels, concurrent requests and interleavings. Each transaction is one method that applies all of its writes or none, and a store failure is a boolean or set parameter (`failing`, `purgeFails`, `raced`).
- The 500 replies of every route's outer `catch`, including the cookie-clearing 500 of the refresh route. Only the failures named by a parameter are modelled.
- Foreign calls, as parameters: JWT signing and verification, bcrypt hashing and checking, SHA-256, `randomBytes`, `randomUUID` and the session token generator.
- The DNS MX lookup in registration is a boolean parameter. The three-years-ago instant of the age check is a parameter too, because it comes from local calendar arithmetic.
- Sending e-mail: verification, reset and password-changed mails are best-effort and do not change the store.
- Object storage for uploads (S3/R2 or local disk). Only the asset rows and their storage keys are modelled.
- Request parsing. The JSON parser and the zod schemas are the `Body` variants. Format rules such as the e-mail syntax, the E.164 phone pattern and length limits are one `formatOk` flag.
- Each login and forgot-password request's rate-limit outcome is a boolean parameter. The limiter itself is modelled once, in `RateLimit.Limiter.Check`, and is driven by the resend-verification route.
- The clock: each request reads one `now`. TTLs come from the environment model.
- Floating point. Scores are exact rationals. `toFixed(2)` and `Math.round` are written out as half-up rounding on the exact value, so binary rounding artefacts of doubles at a tie are not modelled.
- Env.toFloat, and the access and refresh token lifetimes given in days: these are floating-point settings.
- `addHours` in src/utils/tokens.js: it is daylight-saving calendar arithmetic that no route in the model calls.
- Unicode NFKD and the removal of combining marks in the answer normaliser. Case mapping is ASCII-only, and any other character becomes a separator.
- `localeCompare` collation: names sort by UTF-16 code units.
- Local calendar time in the results cron: a fixed offset from UTC, with no daylight-saving changes.
- `JSON.stringify` before the content hash: the serialised snapshot is an abstract character sequence.
- `Math.random` in prepare: a nondeterministic pick among the published packages.
- The fire-and-forget `ensureSingleActiveSession` of the student dashboard (app/api/student/dashboard/summary/route.js:21-24). It runs concurrently and its outcome is never awaited.
- Where a report first auto-submits expired sessions, the model's inputs are the rows loaded after that step. Auto-submit itself is modelled in `AutoSubmit`.
- `cleanupAllSessions` calls `removeCompletedSessions`, which no source file defines.
- The GET listings of the feedback levels and templates routes, and the template listing the templates PUT returns, which is ordered by creation timestamp. Timestamps such as createdAt/updatedAt of authoring rows are not modelled.
- Thin routes with no logic of their own: logout, me, account password, the three auth clean-up routes, users, draft and health.
- CronCleanupResults.CleanupResults: deletes against the corrected cutoff CutoffMonth, not the route's setMonth-then-setDate cutoff (CutoffAsWritten). The two agree whenever the current day exists in the target month (CutoffAsWrittenAgrees); otherwise the route deletes one more month of records (CutoffAsWrittenOverflows, LeapDayRunDeletesFebruary).
- QuestionMapping.PatchOf: a create from a question of no editor type is modelled as a failure of the page, on the reading that the item type column has no default. The schema is not part of this model.
- TutorStudents.KeyFor: sorting by id compares the decimal strings of the model's natural-number ids by code units. How generated string ids order among themselves is not modelled.
- AuthVerifyEmail.VerifyEmail: when several verification rows of the user carry the same hash, the row whose expiry decides is left open, as `findFirst` without an order leaves it.
- AuthResetPassword.CheckResetToken: the same holds for reset rows. Any one of the matching rows may decide between live and expired.
- Start.StartNewAttempt: the concurrent start that wins the unique-index race is not modelled, so its session never enters the store. The re-check after the race sees the store as it was; with one session per student it finds no running session there once the earlier check has let the start through, so a raced start ends StartFailed where the route reports the winner's session.
- Start.StartInRecord: which of several attempts of the category in the record `findFirst` returns is left open; the contract speaks of the picked one.
- Start.CheckRunning: the route's branches for a running session whose attempt is completed or missing, and the catch around the auto-submit, are not reached, because the active-session lookup only returns sessions of existing incomplete attempts and such a session always submits.
- AutoSubmit.AutoSubmitExpiredSessions: the record averages are promised only with one session per student. With several picked sessions, a record's average is the one computed in the last transaction that pointed at it, and a later transaction may complete an attempt of that record through a session that points at another record.
- MediaUpload.Replace: which of several old assets of the same owner and kind `findFirst` removes is left open in the same way.

## Findings

| source | as written | input that shows it | evidently intended | confidence | as-written member | corrected member |
|---|---|---|---|---|---|---|
| app/api/cron/cleanup-results/route.js:18-21 | `setMonth(getMonth() - months)` runs before `setDate(1)`. When the current day does not exist in the target month, the date rolls over into the following month, so the cutoff lands one month late. | A run on 29 February 2024 with the default 12 months computes 1 March 2023 instead of 1 February 2023, so a record of 15 February 2023 is deleted although it is inside the retention window. A run on 31 March with 1 month gives 1 March instead of 1 February. | The cutoff is 00:00 on day 1 of the month exactly `months` before the current one. Moving to day 1 before changing the month gives it. | not executed | CronCleanupResults.CutoffAsWrittenExamples | CronCleanupResults.CutoffMonthIsMonthStart |
