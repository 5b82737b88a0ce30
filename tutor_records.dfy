/**
 * The tutor's list of test records (GET app/api/tutor/test-records): the
 * records holding a completed attempt, newest first, optionally filtered by
 * the student's name or email, a page at a time; each with its per-category
 * score sums, the package last taken in each category, the attempt
 * completed last and the progress over the published categories.
 */
module TutorRecords {
  import opened Common
  import opened Scoring
  import opened Db
  import opened Reports
  import opened JsNumber
  import opened TutorStudents

  /** record.student: the selected id, fullName and email. */
  datatype StudentInfo = StudentInfo(id: nat, fullName: Option<string>, email: string)

  /** A record as the query loads it, with its student; its attempts are all the record's attempts. */
  datatype ListedRecord = ListedRecord(row: RecordRow, student: StudentInfo)

  /** categoryLatest[name]: the completion time and title of the category's latest package. */
  datatype Latest = Latest(completedAt: Time, packageTitle: Option<string>)

  /** latestCompletedAt and latestAttemptId once an attempt has been seen. */
  datatype Pick = Pick(completedAt: Time, attemptId: nat)

  datatype CategoryEntry = CategoryEntry(categoryName: string, score: real, packageTitle: Option<string>)

  datatype RecordView = RecordView(
    recordId: nat,
    attemptId: Option<nat>,
    completedAt: Time,
    averageScore: real,
    feedback: Option<string>,
    hasFeedback: bool,
    student: StudentInfo,
    categoryScores: seq<CategoryEntry>,
    categoriesComplete: nat,
    categoriesTotal: nat)

  datatype TutorRecordsReply =
    | RecordsPage(records: seq<RecordView>, page: int, pageSize: int, total: nat, totalPages: Option<int>)
    | Unauthorized
    | Forbidden
    | LoadFailed

  /** The attempts the query includes: those with a completion time. */
  function Completed(attempts: seq<AttemptRow>): (r: seq<AttemptRow>)
    ensures |r| <= |attempts|
    ensures forall a :: a in r <==> a in attempts && a.completedAt.Some?
  {
    if |attempts| == 0 then []
    else
      var init := attempts[..|attempts| - 1];
      var a := attempts[|attempts| - 1];
      assert forall x :: x in attempts <==> x in init || x == a;
      Completed(init) + (if a.completedAt.Some? then [a] else [])
  }

  /** attempts: { some: { completedAt: { not: null } } }, and the student filter when a search is given. */
  predicate Selected(r: ListedRecord, search: string)
  {
    && (exists a :: a in r.row.attempts && a.completedAt.Some?)
    && NameOrEmailMatches(r.student.fullName, r.student.email, search)
  }

  /** The records the where clause selects, in the loaded order (createdAt descending). */
  function SelectedRecords(rows: seq<ListedRecord>, search: string): (r: seq<ListedRecord>)
    ensures |r| <= |rows|
    ensures forall x :: x in r <==> x in rows && Selected(x, search)
  {
    if |rows| == 0 then []
    else
      var init := rows[..|rows| - 1];
      var x := rows[|rows| - 1];
      assert forall y :: y in rows <==> y in init || y == x;
      SelectedRecords(init, search) + (if Selected(x, search) then [x] else [])
  }

  /** Newest first, as orderBy: { createdAt: 'desc' } returns them. */
  predicate NewestFirst(rows: seq<ListedRecord>)
  {
    forall i, j :: 0 <= i < j < |rows| ==> rows[j].row.createdAt <= rows[i].row.createdAt
  }

  /** Selecting keeps the loaded order. */
  lemma {:induction false} SelectedKeepsOrder(rows: seq<ListedRecord>, search: string)
    requires NewestFirst(rows)
    ensures NewestFirst(SelectedRecords(rows, search))
    decreases |rows|
  {
    if |rows| > 0 {
      var init := rows[..|rows| - 1];
      var x := rows[|rows| - 1];
      assert NewestFirst(init);
      SelectedKeepsOrder(init, search);
      var s := SelectedRecords(init, search);
      forall i | 0 <= i < |s|
        ensures x.row.createdAt <= s[i].row.createdAt
      {
        assert s[i] in init;
        var m :| 0 <= m < |init| && init[m] == s[i];
      }
    }
  }

  /** attempt.packageTitle || null. */
  function TitleOrNull(a: AttemptRow): (r: Option<string>)
    ensures r.Some? ==> r.value != "" && r == a.packageTitle
  {
    if a.packageTitle.Some? && a.packageTitle.value != "" then a.packageTitle else None
  }

  /**
   * categoryLatest[k] after the loop: an attempt of category k replaces the
   * entry when there is none yet or it completed no earlier than the entry.
   */
  function LatestOfCategory(attempts: seq<AttemptRow>, k: string): Option<Latest>
  {
    if |attempts| == 0 then None
    else
      var a := attempts[|attempts| - 1];
      var prev := LatestOfCategory(attempts[..|attempts| - 1], k);
      if CatName(a) == k && (prev.None? || CompletedTime(a) >= prev.value.completedAt)
      then Some(Latest(CompletedTime(a), TitleOrNull(a)))
      else prev
  }

  /** A category has an entry exactly when one of the attempts is filed under it. */
  lemma {:induction false} LatestExists(attempts: seq<AttemptRow>, k: string)
    ensures LatestOfCategory(attempts, k).Some? <==> k in CategoryNames(attempts)
    decreases |attempts|
  {
    if |attempts| > 0 {
      var n := |attempts| - 1;
      assert attempts[..n + 1] == attempts;
      LatestExists(attempts[..n], k);
      CategoryNamesStep(attempts, n);
    }
  }

  /**
   * The entry of a category is the latest completion among its attempts,
   * and its title is that of the last attempt completed at that time.
   */
  lemma {:induction false} LatestIsLastOfMax(attempts: seq<AttemptRow>, k: string) returns (i: nat)
    requires k in CategoryNames(attempts)
    ensures i < |attempts| && CatName(attempts[i]) == k
    ensures LatestOfCategory(attempts, k) == Some(Latest(CompletedTime(attempts[i]), TitleOrNull(attempts[i])))
    ensures forall j :: 0 <= j < |attempts| && CatName(attempts[j]) == k ==>
      CompletedTime(attempts[j]) <= CompletedTime(attempts[i])
    ensures forall j :: i < j < |attempts| && CatName(attempts[j]) == k ==>
      CompletedTime(attempts[j]) < CompletedTime(attempts[i])
    decreases |attempts|
  {
    var n := |attempts| - 1;
    var init := attempts[..n];
    var a := attempts[n];
    assert CatName(a) != k ==> k in CategoryNames(init) by {
      CategoryNamesStep(attempts, n);
      assert attempts[..n + 1] == attempts;
    }
    LatestExists(init, k);
    var prev := LatestOfCategory(init, k);
    if CatName(a) == k && (prev.None? || CompletedTime(a) >= prev.value.completedAt) {
      i := n;
      if prev.Some? {
        var m := LatestIsLastOfMax(init, k);
        forall j | 0 <= j < n && CatName(attempts[j]) == k
          ensures CompletedTime(attempts[j]) <= CompletedTime(a)
        {
          assert init[j] == attempts[j];
        }
      } else {
        forall j | 0 <= j < n
          ensures CatName(attempts[j]) != k
        {
          assert init[j] == attempts[j];
          assert CatName(init[j]) in CategoryNames(init);
        }
      }
    } else {
      assert prev.Some?;
      i := LatestIsLastOfMax(init, k);
      assert init[i] == attempts[i];
      forall j | 0 <= j < n && CatName(attempts[j]) == k
        ensures CompletedTime(attempts[j]) <= CompletedTime(attempts[i])
      {
        assert init[j] == attempts[j];
      }
      forall j | i < j < n && CatName(attempts[j]) == k
        ensures CompletedTime(attempts[j]) < CompletedTime(attempts[i])
      {
        assert init[j] == attempts[j];
      }
    }
  }

  /**
   * latestCompletedAt and latestAttemptId after the loop: an attempt takes
   * over when nothing is held yet, when the held time is 0 (falsy in
   * JavaScript) or when it completed no earlier.
   */
  function LatestAttempt(attempts: seq<AttemptRow>): (r: Option<Pick>)
    ensures r.None? <==> |attempts| == 0
  {
    if |attempts| == 0 then None
    else
      Advance(LatestAttempt(attempts[..|attempts| - 1]), attempts[|attempts| - 1])
  }

  /** One step of the loop on latestCompletedAt and latestAttemptId. */
  function Advance(held: Option<Pick>, a: AttemptRow): (r: Option<Pick>)
    ensures r.Some?
  {
    if TakesOver(held, CompletedTime(a)) then Some(Pick(CompletedTime(a), a.id)) else held
  }

  /** !latestCompletedAt || completedAt >= latestCompletedAt */
  predicate TakesOver(held: Option<Pick>, t: Time)
  {
    held.None? || held.value.completedAt == 0 || t >= held.value.completedAt
  }

  lemma LatestAttemptStep(attempts: seq<AttemptRow>, n: nat)
    requires n < |attempts|
    ensures LatestAttempt(attempts[..n + 1]) == Advance(LatestAttempt(attempts[..n]), attempts[n])
  {
    assert attempts[..n + 1][..n] == attempts[..n];
  }

  predicate AfterEpoch(attempts: seq<AttemptRow>)
  {
    forall i :: 0 <= i < |attempts| ==> CompletedTime(attempts[i]) >= 0
  }

  /**
   * With no completion before 1970 the falsy-zero test changes nothing:
   * the attempt picked is the last one completed at the latest time, which
   * is the completedAt the record reports.
   */
  lemma {:induction false} LatestAttemptIsLastOfMax(attempts: seq<AttemptRow>) returns (i: nat)
    requires |attempts| > 0 && AfterEpoch(attempts)
    ensures i < |attempts|
    ensures LatestAttempt(attempts) == Some(Pick(CompletedTime(attempts[i]), attempts[i].id))
    ensures forall j :: 0 <= j < |attempts| ==> CompletedTime(attempts[j]) <= CompletedTime(attempts[i])
    ensures forall j :: i < j < |attempts| ==> CompletedTime(attempts[j]) < CompletedTime(attempts[i])
    ensures CompletedTime(attempts[i]) == LatestDate(attempts)
    decreases |attempts|
  {
    var n := |attempts| - 1;
    var init := attempts[..n];
    var t := CompletedTime(attempts[n]);
    assert forall j :: 0 <= j < n ==> init[j] == attempts[j];
    if n == 0 {
      i := 0;
    } else {
      var m := LatestAttemptIsLastOfMax(init);
      if t >= CompletedTime(init[m]) {
        i := n;
      } else {
        i := m;
      }
    }
  }

  /** Before 1970 a held time of exactly 0 is overtaken by an earlier attempt. */
  lemma EpochIsFalsy()
    ensures var first := AttemptRow(1, 0, Some(50), None, None, Some(0));
      var second := AttemptRow(2, 0, Some(60), None, None, Some(-1000));
      LatestAttempt([first, second]) == Some(Pick(-1000, 2))
  {
    var first := AttemptRow(1, 0, Some(50), None, None, Some(0));
    var second := AttemptRow(2, 0, Some(60), None, None, Some(-1000));
    assert [first, second][..1] == [first];
    assert [first][..0] == [];
  }

  /** The per-category state of the loop over attempts[..i]. */
  ghost predicate CategoryTable(attempts: seq<AttemptRow>, names: seq<string>, scores: map<string, int>,
                                latest: map<string, Latest>)
  {
    && names == Distinct(CatNames(attempts))
    && scores == CategoryTotals(attempts)
    && LatestTable(attempts, latest)
  }

  ghost predicate LatestTable(attempts: seq<AttemptRow>, latest: map<string, Latest>)
  {
    && latest.Keys == CategoryNames(attempts)
    && forall k :: k in latest ==> LatestOfCategory(attempts, k) == Some(latest[k])
  }

  /**
   * The loop's variables: the keys of categoryScores in insertion order,
   * categoryScores, categoryLatest, and latestCompletedAt with
   * latestAttemptId.
   */
  datatype Tally = Tally(names: seq<string>, scores: map<string, int>, latest: map<string, Latest>, pick: Option<Pick>)

  /** One pass of the loop body on one attempt. */
  function TallyStep(t: Tally, a: AttemptRow): (r: Tally)
    ensures CatName(a) in r.scores && CatName(a) in r.latest
  {
    var k := CatName(a);
    var time := CompletedTime(a);
    Tally(
      if k in t.scores then t.names else t.names + [k],
      t.scores[k := (if k in t.scores then t.scores[k] else 0) + ScoreValue(a.totalScore)],
      if k !in t.latest || time >= t.latest[k].completedAt then t.latest[k := Latest(time, TitleOrNull(a))] else t.latest,
      Advance(t.pick, a))
  }

  /** The loop's variables after a run of attempts. */
  function AttemptsTally(attempts: seq<AttemptRow>): Tally
  {
    if |attempts| == 0 then Tally([], map[], map[], None)
    else TallyStep(AttemptsTally(attempts[..|attempts| - 1]), attempts[|attempts| - 1])
  }

  /** categoryScores and categoryLatest have a key exactly for the categories the attempts are filed under. */
  lemma {:induction false} TallyKeys(attempts: seq<AttemptRow>, k: string)
    ensures k in AttemptsTally(attempts).scores <==> k in CategoryNames(attempts)
    ensures k in AttemptsTally(attempts).latest <==> k in CategoryNames(attempts)
    decreases |attempts|
  {
    if |attempts| > 0 {
      var n := |attempts| - 1;
      TallyKeys(attempts[..n], k);
      CategoryNamesStep(attempts, n);
      assert attempts[..n + 1] == attempts;
    }
  }

  /** Each categoryScores entry is the sum of its category's scores, null counting as 0. */
  lemma {:induction false} TallyScore(attempts: seq<AttemptRow>, k: string)
    requires k in AttemptsTally(attempts).scores
    ensures AttemptsTally(attempts).scores[k] == ScoreOfCategory(attempts, k)
    decreases |attempts|
  {
    var n := |attempts| - 1;
    var pre := attempts[..n];
    if k in AttemptsTally(pre).scores {
      TallyScore(pre, k);
    } else {
      TallyKeys(pre, k);
      ScoreOfAbsentCategory(pre, k);
    }
  }

  /** Each categoryLatest entry is the one the attempts give its category. */
  lemma {:induction false} TallyLatest(attempts: seq<AttemptRow>, k: string)
    requires k in AttemptsTally(attempts).latest
    ensures LatestOfCategory(attempts, k) == Some(AttemptsTally(attempts).latest[k])
    decreases |attempts|
  {
    var n := |attempts| - 1;
    var pre := attempts[..n];
    if k in AttemptsTally(pre).latest {
      TallyLatest(pre, k);
    } else {
      TallyKeys(pre, k);
      LatestExists(pre, k);
    }
  }

  /** The keys of categoryScores in insertion order are the distinct category names in first-seen order. */
  lemma {:induction false} TallyNames(attempts: seq<AttemptRow>)
    ensures AttemptsTally(attempts).names == Distinct(CatNames(attempts))
    decreases |attempts|
  {
    if |attempts| > 0 {
      var n := |attempts| - 1;
      var pre := attempts[..n];
      var k := CatName(attempts[n]);
      TallyNames(pre);
      TallyKeys(pre, k);
      CatNamesMembers(pre, k);
      CatNamesStep(attempts, n);
      assert attempts[..n + 1] == attempts;
      DistinctSnoc(CatNames(pre), k);
    }
  }

  /** latestCompletedAt and latestAttemptId follow LatestAttempt. */
  lemma {:induction false} TallyPick(attempts: seq<AttemptRow>)
    ensures AttemptsTally(attempts).pick == LatestAttempt(attempts)
    decreases |attempts|
  {
    if |attempts| > 0 {
      TallyPick(attempts[..|attempts| - 1]);
    }
  }

  /** After the loop the tables are exactly the per-category sums, latest entries and names. */
  lemma TallyMeaning(attempts: seq<AttemptRow>)
    ensures var t := AttemptsTally(attempts);
      CategoryTable(attempts, t.names, t.scores, t.latest) && t.pick == LatestAttempt(attempts)
  {
    var t := AttemptsTally(attempts);
    TallyNames(attempts);
    TallyPick(attempts);
    forall k
      ensures k in t.scores <==> k in CategoryNames(attempts)
      ensures k in t.latest <==> k in CategoryNames(attempts)
    {
      TallyKeys(attempts, k);
    }
    forall k | k in t.scores
      ensures t.scores[k] == ScoreOfCategory(attempts, k)
    {
      TallyScore(attempts, k);
    }
    forall k | k in t.latest
      ensures LatestOfCategory(attempts, k) == Some(t.latest[k])
    {
      TallyLatest(attempts, k);
    }
  }

  /**
   * The for…of loop over a record's completed attempts: categoryScores
   * (names holds its keys in insertion order), categoryLatest, and the
   * attempt completed last.
   */
  method SummariseAttempts(attempts: seq<AttemptRow>)
    returns (names: seq<string>, scores: map<string, int>, latest: map<string, Latest>, pick: Option<Pick>)
    ensures Tally(names, scores, latest, pick) == AttemptsTally(attempts)
    ensures CategoryTable(attempts, names, scores, latest)
    ensures pick == LatestAttempt(attempts)
  {
    names, scores, latest, pick := [], map[], map[], None;
    var i := 0;
    while i < |attempts|
      invariant 0 <= i <= |attempts|
      invariant Tally(names, scores, latest, pick) == AttemptsTally(attempts[..i])
    {
      var a := attempts[i];
      var k := CatName(a);
      var t := CompletedTime(a);
      ghost var before := Tally(names, scores, latest, pick);
      assert attempts[..i + 1][..i] == attempts[..i];
      if k !in scores {
        names := names + [k];
        scores := scores[k := 0];
      }
      scores := scores[k := scores[k] + ScoreValue(a.totalScore)];
      if k !in latest || t >= latest[k].completedAt {
        latest := latest[k := Latest(t, TitleOrNull(a))];
      }
      pick := Advance(pick, a);
      assert Tally(names, scores, latest, pick) == TallyStep(before, a);
      i := i + 1;
    }
    assert attempts[..i] == attempts;
    TallyMeaning(attempts);
  }

  /** One categoryScores entry: the sum rounded to cents and the title of the category's latest package. */
  function EntryOf(attempts: seq<AttemptRow>, k: string): CategoryEntry
  {
    var title := match LatestOfCategory(attempts, k)
      case Some(l) => l.packageTitle
      case None => None;
    CategoryEntry(k, RoundCents(ScoreOfCategory(attempts, k) as real), title)
  }

  /** Object.entries(categoryScores).map(…): one entry per category, in first-seen order. */
  function CategoryEntries(attempts: seq<AttemptRow>): (r: seq<CategoryEntry>)
    ensures |r| == |Distinct(CatNames(attempts))|
    ensures forall i :: 0 <= i < |r| ==> r[i] == EntryOf(attempts, Distinct(CatNames(attempts))[i])
  {
    var names := Distinct(CatNames(attempts));
    seq(|names|, i requires 0 <= i < |names| => EntryOf(attempts, names[i]))
  }

  /** Every category an attempt is filed under has exactly one entry, carrying its summed score. */
  lemma EntriesCoverCategories(attempts: seq<AttemptRow>, k: string)
    requires k in CategoryNames(attempts)
    ensures exists i :: 0 <= i < |CategoryEntries(attempts)| && CategoryEntries(attempts)[i].categoryName == k
    ensures forall i, j :: 0 <= i < j < |CategoryEntries(attempts)| ==>
      CategoryEntries(attempts)[i].categoryName != CategoryEntries(attempts)[j].categoryName
  {
    var names := Distinct(CatNames(attempts));
    var r := CategoryEntries(attempts);
    CatNamesMembers(attempts, k);
    var i :| 0 <= i < |names| && names[i] == k;
    assert r[i].categoryName == k;
  }

  /**
   * categoriesTotal: the number of published categories when this is the
   * student's newest record, never below the categories it completed.
   */
  function CategoriesTotal(complete: nat, published: nat, isNewest: bool): (r: nat)
    ensures r >= complete
    ensures r == complete || (isNewest && r == published)
    ensures isNewest ==> r >= published
  {
    if isNewest && published > complete then published else complete
  }

  /** findFirst({ where: { studentId }, orderBy: { createdAt: 'desc' } }).id === record.id */
  predicate IsNewest(r: ListedRecord, newest: map<nat, nat>)
  {
    r.row.studentId in newest && newest[r.row.studentId] == r.row.id
  }

  /** !!(record.feedback && record.feedback.trim()) */
  predicate HasFeedback(feedback: Option<string>)
  {
    feedback.Some? && Trim(feedback.value) != ""
  }

  /** record.feedback || null */
  function FeedbackOrNull(feedback: Option<string>): (r: Option<string>)
    ensures r.Some? <==> feedback.Some? && feedback.value != ""
    ensures r.Some? ==> r == feedback
  {
    if feedback.Some? && feedback.value != "" then feedback else None
  }

  /** Feedback flagged as present is always sent; feedback of blanks alone is sent but not flagged. */
  lemma FlaggedFeedbackIsSent(feedback: Option<string>)
    ensures HasFeedback(feedback) ==> FeedbackOrNull(feedback) == feedback
    ensures FeedbackOrNull(Some(" ")) == Some(" ") && !HasFeedback(Some(" "))
  {
    assert IsJsSpace(' ');
    assert Trim(" ") == "";
  }

  /** Math.round((record.averageScore || 0) * 100) / 100 */
  function AverageCents(avg: Option<real>): real
  {
    RoundCents(if avg.Some? then avg.value else 0.0)
  }

  /** The object the map callback returns for one record. */
  function RecordViewOf(r: ListedRecord, published: nat, newest: map<nat, nat>): RecordView
  {
    var attempts := Completed(r.row.attempts);
    var complete := |Distinct(CatNames(attempts))|;
    var pick := LatestAttempt(attempts);
    RecordView(
      r.row.id,
      if pick.Some? then Some(pick.value.attemptId) else None,
      LatestDate(attempts),
      AverageCents(r.row.averageScore),
      FeedbackOrNull(r.row.feedback),
      HasFeedback(r.row.feedback),
      r.student,
      CategoryEntries(attempts),
      complete,
      CategoriesTotal(complete, published, IsNewest(r, newest)))
  }

  /**
   * What a record's view promises: one entry per category completed, a
   * total never below them (the published count on the student's newest
   * record), feedback flagged only when it is sent, and an attempt id
   * exactly when an attempt was completed: the last one completed at the
   * reported completedAt when no completion predates 1970.
   */
  lemma RecordViewFacts(r: ListedRecord, published: nat, newest: map<nat, nat>)
    ensures var v := RecordViewOf(r, published, newest);
      var attempts := Completed(r.row.attempts);
      && v.recordId == r.row.id && v.student == r.student
      && v.categoriesComplete == |v.categoryScores| <= v.categoriesTotal
      && (IsNewest(r, newest) ==> v.categoriesTotal >= published)
      && (forall k :: k in CategoryNames(attempts) <==>
            exists i :: 0 <= i < |v.categoryScores| && v.categoryScores[i].categoryName == k)
      && (v.hasFeedback ==> v.feedback == r.row.feedback)
      && (v.attemptId.None? <==> |attempts| == 0)
      && (v.attemptId.Some? && AfterEpoch(attempts) ==>
            exists i :: 0 <= i < |attempts| && attempts[i].id == v.attemptId.value
              && CompletedTime(attempts[i]) == v.completedAt)
  {
    var attempts := Completed(r.row.attempts);
    FlaggedFeedbackIsSent(r.row.feedback);
    EntriesNameCategories(attempts);
    PickIsLatest(attempts);
  }

  /** The entries name exactly the categories the attempts are filed under. */
  lemma EntriesNameCategories(attempts: seq<AttemptRow>)
    ensures forall k :: k in CategoryNames(attempts) <==>
      exists i :: 0 <= i < |CategoryEntries(attempts)| && CategoryEntries(attempts)[i].categoryName == k
  {
    var names := Distinct(CatNames(attempts));
    var es := CategoryEntries(attempts);
    forall k
      ensures k in CategoryNames(attempts) <==> exists i :: 0 <= i < |es| && es[i].categoryName == k
    {
      CatNamesMembers(attempts, k);
      if k in names {
        var i :| 0 <= i < |names| && names[i] == k;
        assert es[i].categoryName == k;
      }
    }
  }

  /** An attempt is picked exactly when one was completed; with no completion before 1970 it carries completedAt. */
  lemma PickIsLatest(attempts: seq<AttemptRow>)
    ensures LatestAttempt(attempts).None? <==> |attempts| == 0
    ensures LatestAttempt(attempts).Some? && AfterEpoch(attempts) ==>
      exists i :: 0 <= i < |attempts| && attempts[i].id == LatestAttempt(attempts).value.attemptId
        && CompletedTime(attempts[i]) == LatestDate(attempts)
  {
    if |attempts| > 0 && AfterEpoch(attempts) {
      var i := LatestAttemptIsLastOfMax(attempts);
    }
  }

  /** Object.entries(categoryScores).map(…), read from the loop's tables. */
  method BuildEntries(attempts: seq<AttemptRow>, names: seq<string>, scores: map<string, int>,
                      latest: map<string, Latest>) returns (entries: seq<CategoryEntry>)
    requires CategoryTable(attempts, names, scores, latest)
    ensures entries == CategoryEntries(attempts)
  {
    entries := [];
    var i := 0;
    ghost var all := CategoryEntries(attempts);
    while i < |names|
      invariant 0 <= i <= |names| == |all|
      invariant entries == all[..i]
    {
      var k := names[i];
      EntryFromTables(attempts, names, scores, latest, k);
      var title := latest[k].packageTitle;
      TakeOneMore(all, i);
      entries := entries + [CategoryEntry(k, RoundCents(scores[k] as real), title)];
      i := i + 1;
    }
  }

  lemma TakeOneMore<T>(s: seq<T>, i: nat)
    requires i < |s|
    ensures s[..i + 1] == s[..i] + [s[i]]
  {
  }

  /** A listed category's entry can be read from the loop's tables. */
  lemma EntryFromTables(attempts: seq<AttemptRow>, names: seq<string>, scores: map<string, int>,
                        latest: map<string, Latest>, k: string)
    requires CategoryTable(attempts, names, scores, latest) && k in names
    ensures k in scores && k in latest
    ensures CategoryEntry(k, RoundCents(scores[k] as real), latest[k].packageTitle) == EntryOf(attempts, k)
  {
    CatNamesMembers(attempts, k);
    assert LatestOfCategory(attempts, k) == Some(latest[k]);
  }

  /** The map callback: the loop, the reduce for completedAt, the progress counts and the reply object. */
  method SummariseRecord(r: ListedRecord, published: nat, newest: map<nat, nat>) returns (v: RecordView)
    ensures v == RecordViewOf(r, published, newest)
  {
    var attempts := Completed(r.row.attempts);
    var names, scores, latest, pick := SummariseAttempts(attempts);
    var entries := BuildEntries(attempts, names, scores, latest);
    var complete := |names|;
    var total := complete;
    if IsNewest(r, newest) {
      total := published;
    }
    if complete > total {
      total := complete;
    }
    var attemptId := if pick.Some? then Some(pick.value.attemptId) else None;
    v := RecordView(r.row.id, attemptId, LatestDate(attempts), AverageCents(r.row.averageScore),
      FeedbackOrNull(r.row.feedback), HasFeedback(r.row.feedback), r.student, entries, complete, total);
  }

  /** Promise.all(recordsRaw.map(…)): one view per loaded record, in order. */
  method SummariseRecords(page: seq<ListedRecord>, published: nat, newest: map<nat, nat>) returns (views: seq<RecordView>)
    ensures views == Views(page, published, newest)
  {
    views := [];
    var i := 0;
    while i < |page|
      invariant 0 <= i <= |page|
      invariant views == Views(page[..i], published, newest)
    {
      var v := SummariseRecord(page[i], published, newest);
      ViewsStep(page, i, published, newest);
      views := views + [v];
      i := i + 1;
    }
    assert page[..i] == page;
  }

  /** One more record adds its view at the end. */
  lemma ViewsStep(page: seq<ListedRecord>, i: nat, published: nat, newest: map<nat, nat>)
    requires i < |page|
    ensures Views(page[..i + 1], published, newest) == Views(page[..i], published, newest) + [RecordViewOf(page[i], published, newest)]
  {
    var a := Views(page[..i + 1], published, newest);
    var b := Views(page[..i], published, newest) + [RecordViewOf(page[i], published, newest)];
    forall j | 0 <= j < i + 1
      ensures a[j] == b[j]
    {
      assert page[..i + 1][j] == page[j];
      if j < i {
        assert page[..i][j] == page[j];
      }
    }
  }

  /**
   * skip = (page - 1) * pageSize and take = pageSize as the query accepts
   * them; None when the query rejects them (NaN, or a negative value).
   */
  function Paging(page: Option<int>, size: Option<int>): (r: Option<(nat, nat)>)
    ensures r.Some? <==> page.Some? && size.Some? && size.value >= 0 && MulInt(page.value - 1, size.value) >= 0
    ensures r.Some? ==> r.value.0 == MulInt(page.value - 1, size.value) && r.value.1 == size.value
  {
    if page.None? || size.None? || size.value < 0 || MulInt(page.value - 1, size.value) < 0 then None
    else Some((MulInt(page.value - 1, size.value), size.value))
  }

  /** Page 1 and up with a positive size is always accepted; page 0 is rejected unless the size is 0. */
  lemma PagingAccepts(page: int, size: int)
    ensures page >= 1 && size >= 0 ==> Paging(Some(page), Some(size)).Some?
    ensures page < 1 && size > 0 ==> Paging(Some(page), Some(size)).None?
  {
    if page >= 1 && size >= 0 {
      MulMonotone(0, page - 1, size);
    }
    if page < 1 && size > 0 {
      MulMonotone(page - 1 + 1 - page, 1 - page, size);
      assert MulInt(page - 1, size) == -((1 - page) * size);
    }
  }

  /** The search after (search || '').trim(). */
  function SearchOf(raw: Option<string>): string
  {
    Trim(if raw.Some? then raw.value else "")
  }

  /** The reply for a staff user whose paging the query accepts. */
  function RecordsPageOf(rows: seq<ListedRecord>, searchRaw: Option<string>, page: int, size: int,
                         published: nat, newest: map<nat, nat>): (reply: TutorRecordsReply)
    requires Paging(Some(page), Some(size)).Some?
    ensures reply.RecordsPage?
    ensures reply.page == page && reply.pageSize == size
    ensures reply.total == |SelectedRecords(rows, SearchOf(searchRaw))|
    ensures |reply.records| <= size
    ensures reply.totalPages == JsTotalPages(reply.total, Some(size))
    ensures var listed := SelectedRecords(rows, SearchOf(searchRaw));
      var skip := Paging(Some(page), Some(size)).value.0;
      forall i :: 0 <= i < |reply.records| ==>
        skip + i < |listed| && reply.records[i] == RecordViewOf(listed[skip + i], published, newest)
  {
    var listed := SelectedRecords(rows, SearchOf(searchRaw));
    var skip := Paging(Some(page), Some(size)).value.0;
    RecordsPage(Views(SkipTake(listed, skip, size), published, newest),
      page, size, |listed|, JsTotalPages(|listed|, Some(size)))
  }

  /** The views of the loaded page, in order. */
  function Views(page: seq<ListedRecord>, published: nat, newest: map<nat, nat>): (r: seq<RecordView>)
    ensures |r| == |page|
    ensures forall i :: 0 <= i < |r| ==> r[i] == RecordViewOf(page[i], published, newest)
  {
    seq(|page|, i requires 0 <= i < |page| => RecordViewOf(page[i], published, newest))
  }

  /**
   * GET /api/tutor/test-records. The store is given as the records newest
   * first with their students, the number of published categories, and
   * each student's newest record id.
   */
  method TutorTestRecords(user: Option<Role>, rows: seq<ListedRecord>, searchRaw: Option<string>,
                          pageRaw: Option<string>, sizeRaw: Option<string>,
                          published: nat, newest: map<nat, nat>) returns (reply: TutorRecordsReply)
    ensures reply.Unauthorized? <==> user.None?
    ensures reply.Forbidden? <==> user.Some? && !IsStaff(user.value)
    ensures reply.LoadFailed? <==>
      StaffUser(user) && Paging(QueryNumber(pageRaw, "1"), QueryNumber(sizeRaw, "10")).None?
    ensures reply.RecordsPage? ==>
      reply == RecordsPageOf(rows, searchRaw, QueryNumber(pageRaw, "1").value, QueryNumber(sizeRaw, "10").value,
        published, newest)
  {
    if user.None? {
      return TutorRecordsReply.Unauthorized;
    }
    if !IsStaff(user.value) {
      return TutorRecordsReply.Forbidden;
    }
    var page, size := QueryNumber(pageRaw, "1"), QueryNumber(sizeRaw, "10");
    var search := SearchOf(searchRaw);
    var paging := Paging(page, size);
    if paging.None? {
      return TutorRecordsReply.LoadFailed;
    }
    var listed := SelectedRecords(rows, search);
    var total := |listed|;
    var views := SummariseRecords(SkipTake(listed, paging.value.0, paging.value.1), published, newest);
    reply := RecordsPage(views, page.value, size.value, total, JsTotalPages(total, size));
  }

  /** Without parameters the route serves page 1 with 10 records per page. */
  lemma DefaultPaging()
    ensures QueryNumber(None, "1") == Some(1) && QueryNumber(None, "10") == Some(10)
    ensures Paging(Some(1), Some(10)) == Some((0, 10))
  {
    ParseIntOne();
    ParseIntTen();
  }
}
