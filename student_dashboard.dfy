/**
 * The student's dashboard (GET app/api/student/dashboard/summary): the
 * three newest completed attempts, the best score per category, the
 * published categories with their completion in the current record, the
 * mean and the best of the record averages, and the session still running.
 *
 * The inputs are the rows the route's queries load after expired sessions
 * have been auto-submitted; the orders the queries ask the database for
 * are stated where a property depends on them.
 */
module StudentDashboard {
  import opened Common
  import opened Scoring
  import opened Db
  import opened Reports
  import opened StudentRecords

  datatype RecentAttempt = RecentAttempt(
    id: nat,
    completedAt: Option<Time>,
    totalScore: real,
    packageTitle: string,
    categoryName: string)

  datatype CategoryBest = CategoryBest(name: string, best: real)

  datatype CategoryRow = CategoryRow(id: nat, name: string)

  datatype CategoryStatus = CategoryStatus(id: nat, name: string, completedInCurrentRecord: bool)

  datatype ActiveRecordView = ActiveRecordView(id: nat, completedCategories: set<nat>)

  datatype ActiveSessionView = ActiveSessionView(attemptId: nat, categoryName: string, expiresAt: Time, isExpired: bool)

  /**
   * What the dashboard's queries load for one student:
   *   byCompletion  completed attempts, newest completedAt first
   *   completed     completed attempts, in the order of the unordered query
   *   packages      the question packages
   *   categoryList  the categories holding a published package, by name
   *   records       the student's records, newest first, each with its completed attempts
   *   sessions      the student's sessions; attempts the attempts table
   */
  datatype DashboardRows = DashboardRows(
    fullName: Option<Option<string>>,
    byCompletion: seq<AttemptRow>,
    completed: seq<AttemptRow>,
    packages: map<nat, Package>,
    categoryList: seq<CategoryRow>,
    records: seq<RecordRow>,
    sessions: seq<Session>,
    attempts: map<nat, Attempt>)

  datatype DashboardReply =
    | Dashboard(
        greeting: Option<string>,
        studentId: nat,
        recent: seq<RecentAttempt>,
        categories: seq<CategoryBest>,
        categoryList: seq<CategoryStatus>,
        overallBest: int,
        bestBand: Option<int>,
        recordCount: nat,
        activeRecord: Option<ActiveRecordView>,
        allComplete: bool,
        hasCompletedRecord: bool,
        activeSession: Option<ActiveSessionView>)
    | UserNotFound

  /** x || 'Unknown' */
  function OrUnknown(s: Option<string>): (r: string)
    ensures s.Some? && s.value != "" ==> r == s.value
    ensures s.None? || s.value == "" ==> r == "Unknown"
  {
    match s
      case Some(v) => if v != "" then v else "Unknown"
      case None => "Unknown"
  }

  /** One recent attempt; Math.round(null * 100) / 100 is 0, so a missing score shows as 0. */
  function RecentView(a: AttemptRow): (r: RecentAttempt)
    ensures r.id == a.id && r.completedAt == a.completedAt
    ensures r.totalScore == ScoreValue(a.totalScore) as real
    ensures r.packageTitle == OrUnknown(a.packageTitle) && r.categoryName == OrUnknown(a.categoryName)
  {
    RoundCentsOfInt(ScoreValue(a.totalScore));
    RecentAttempt(a.id, a.completedAt, RoundCents(ScoreValue(a.totalScore) as real),
      OrUnknown(a.packageTitle), OrUnknown(a.categoryName))
  }

  /** take: 3 of the attempts newest first. */
  function Recent(byCompletion: seq<AttemptRow>): (r: seq<RecentAttempt>)
    ensures |r| == if |byCompletion| < 3 then |byCompletion| else 3
    ensures forall i :: 0 <= i < |r| ==> r[i] == RecentView(byCompletion[i])
  {
    var n := if |byCompletion| < 3 then |byCompletion| else 3;
    seq(n, i requires 0 <= i < n => RecentView(byCompletion[i]))
  }

  predicate NewestFirst(xs: seq<AttemptRow>)
  {
    forall i, j :: 0 <= i < j < |xs| ==> CompletedTime(xs[j]) <= CompletedTime(xs[i])
  }

  /** Loaded newest first, the recent attempts were completed no earlier than any attempt left out. */
  lemma RecentAreNewest(byCompletion: seq<AttemptRow>, i: nat, j: nat)
    requires NewestFirst(byCompletion)
    requires i < |Recent(byCompletion)| && |Recent(byCompletion)| <= j < |byCompletion|
    ensures CompletedTime(byCompletion[j]) <= CompletedTime(byCompletion[i])
    ensures Recent(byCompletion)[i].id == byCompletion[i].id
  {
  }

  /**
   * The best score of a category as the Map update computes it: the
   * greatest score filed under it, and never below 0 because a new entry
   * starts from Math.max(score, 0).
   */
  function BestOfCategory(attempts: seq<AttemptRow>, k: string): (r: int)
    ensures r >= 0
    ensures forall i :: 0 <= i < |attempts| && CatName(attempts[i]) == k ==> ScoreValue(attempts[i].totalScore) <= r
    ensures r == 0 || exists i :: 0 <= i < |attempts| && CatName(attempts[i]) == k && ScoreValue(attempts[i].totalScore) == r
  {
    if |attempts| == 0 then 0
    else
      var init := attempts[..|attempts| - 1];
      var a := attempts[|attempts| - 1];
      var prev := BestOfCategory(init, k);
      assert forall i :: 0 <= i < |init| ==> init[i] == attempts[i];
      if CatName(a) == k && ScoreValue(a.totalScore) > prev then ScoreValue(a.totalScore) else prev
  }

  function Max(a: int, b: int): int
  {
    if a > b then a else b
  }

  predicate BestTable(attempts: seq<AttemptRow>, names: seq<string>, best: map<string, int>)
  {
    && names == Distinct(CatNames(attempts))
    && best.Keys == CategoryNames(attempts)
    && forall k :: k in best ==> best[k] == BestOfCategory(attempts, k)
  }

  /**
   * The Map after a run of attempts, one attempt at a time: its keys in
   * insertion order, and per key Math.max of the scores seen, starting
   * from Math.max(score, 0).
   */
  function BestFold(attempts: seq<AttemptRow>): (r: (seq<string>, map<string, int>))
    ensures |r.0| <= |attempts|
  {
    if |attempts| == 0 then ([], map[])
    else
      var n := |attempts| - 1;
      var prev := BestFold(attempts[..n]);
      var cat := CatName(attempts[n]);
      var score := ScoreValue(attempts[n].totalScore);
      if cat !in prev.1 then (prev.0 + [cat], prev.1[cat := Max(score, 0)])
      else (prev.0, prev.1[cat := Max(score, prev.1[cat])])
  }

  /** The Map has a key exactly for the category names of the attempts. */
  lemma {:induction false} BestFoldKeys(attempts: seq<AttemptRow>, k: string)
    ensures k in BestFold(attempts).1 <==> k in CategoryNames(attempts)
    decreases |attempts|
  {
    if |attempts| > 0 {
      var n := |attempts| - 1;
      BestFoldKeys(attempts[..n], k);
      CategoryNamesStep(attempts, n);
      assert attempts[..n + 1] == attempts;
    }
  }

  /** Each key holds its category's best score. */
  lemma {:induction false} BestFoldValue(attempts: seq<AttemptRow>, k: string)
    requires k in BestFold(attempts).1
    ensures BestFold(attempts).1[k] == BestOfCategory(attempts, k)
    decreases |attempts|
  {
    var n := |attempts| - 1;
    var pre := attempts[..n];
    if k in BestFold(pre).1 {
      BestFoldValue(pre, k);
    } else {
      BestFoldKeys(pre, k);
    }
  }

  /** The keys in insertion order are the distinct category names in first-seen order. */
  lemma {:induction false} BestFoldNames(attempts: seq<AttemptRow>)
    ensures BestFold(attempts).0 == Distinct(CatNames(attempts))
    decreases |attempts|
  {
    if |attempts| > 0 {
      var n := |attempts| - 1;
      var pre := attempts[..n];
      var cat := CatName(attempts[n]);
      BestFoldNames(pre);
      BestFoldKeys(pre, cat);
      CatNamesMembers(pre, cat);
      CatNamesStep(attempts, n);
      assert attempts[..n + 1] == attempts;
      DistinctSnoc(CatNames(pre), cat);
    }
  }

  /** The fold builds exactly the table of best scores. */
  lemma BestFoldMeaning(attempts: seq<AttemptRow>)
    ensures BestTable(attempts, BestFold(attempts).0, BestFold(attempts).1)
  {
    var best := BestFold(attempts).1;
    BestFoldNames(attempts);
    forall k
      ensures k in best <==> k in CategoryNames(attempts)
    {
      BestFoldKeys(attempts, k);
    }
    forall k | k in best
      ensures best[k] == BestOfCategory(attempts, k)
    {
      BestFoldValue(attempts, k);
    }
  }

  /**
   * The loop filling bestByCategory: names holds the Map's keys in
   * insertion order, best its values.
   */
  method BestByCategory(attempts: seq<AttemptRow>) returns (names: seq<string>, best: map<string, int>)
    ensures (names, best) == BestFold(attempts)
    ensures BestTable(attempts, names, best)
  {
    names, best := [], map[];
    var i := 0;
    while i < |attempts|
      invariant 0 <= i <= |attempts|
      invariant (names, best) == BestFold(attempts[..i])
    {
      var a := attempts[i];
      var cat := CatName(a);
      var score := ScoreValue(a.totalScore);
      assert attempts[..i + 1][..i] == attempts[..i];
      if cat !in best {
        names := names + [cat];
        best := best[cat := Max(score, 0)];
      } else {
        best := best[cat := Max(score, best[cat])];
      }
      i := i + 1;
    }
    assert attempts[..i] == attempts;
    BestFoldMeaning(attempts);
  }

  /** The categories array: the Map's entries in insertion order, best rounded to cents. */
  function CategoriesBest(attempts: seq<AttemptRow>): (r: seq<CategoryBest>)
    ensures |r| == |Distinct(CatNames(attempts))|
    ensures forall i :: 0 <= i < |r| ==> r[i] == CategoryBest(Distinct(CatNames(attempts))[i],
      BestOfCategory(attempts, Distinct(CatNames(attempts))[i]) as real)
  {
    var names := Distinct(CatNames(attempts));
    seq(|names|, i requires 0 <= i < |names| => BestEntry(attempts, names[i]))
  }

  function BestEntry(attempts: seq<AttemptRow>, name: string): (e: CategoryBest)
    ensures e == CategoryBest(name, BestOfCategory(attempts, name) as real)
  {
    RoundCentsOfInt(BestOfCategory(attempts, name));
    CategoryBest(name, RoundCents(BestOfCategory(attempts, name) as real))
  }

  /** The categories that hold at least one published package. */
  function PublishedCategoryIds(packages: map<nat, Package>): set<nat>
  {
    set k | k in packages && packages[k].status == Published :: packages[k].categoryId
  }

  /** The categories of the packages of a record's completed attempts; deleted packages drop out. */
  function CompletedCategoryIds(r: RecordRow, packages: map<nat, Package>): set<nat>
  {
    set i | 0 <= i < |r.attempts| && r.attempts[i].packageId in packages :: packages[r.attempts[i].packageId].categoryId
  }

  /**
   * activeRecord: among the five newest records the first holding a
   * completed attempt, else the newest record, else none.
   */
  function ActiveRecordIndex(records: seq<RecordRow>): (r: Option<nat>)
    ensures r.None? <==> |records| == 0
    ensures r.Some? ==> r.value < |records| && r.value < 5
    ensures r.Some? && |records[r.value].attempts| > 0 ==>
      forall j :: 0 <= j < r.value ==> |records[j].attempts| == 0
    ensures r.Some? && |records[r.value].attempts| == 0 ==>
      r.value == 0 && forall j :: 0 <= j < |records| && j < 5 ==> |records[j].attempts| == 0
  {
    match FirstCompleted(records, 0)
      case Some(i) => Some(i)
      case None => if |records| > 0 then Some(0) else None
  }

  /** The first of records[from..5] holding a completed attempt. */
  function FirstCompleted(records: seq<RecordRow>, from: nat): (r: Option<nat>)
    requires from <= 5
    ensures r.Some? ==> (from <= r.value < |records| && r.value < 5 && |records[r.value].attempts| > 0
      && forall j :: from <= j < r.value ==> |records[j].attempts| == 0)
    ensures r.None? ==> forall j :: from <= j < |records| && j < 5 ==> |records[j].attempts| == 0
    decreases 5 - from
  {
    if from >= |records| || from == 5 then None
    else if |records[from].attempts| > 0 then Some(from)
    else FirstCompleted(records, from + 1)
  }

  /**
   * The loop that breaks at the first of the 25 newest records whose
   * completed attempts span as many categories as are published; skipped
   * when nothing is published.
   */
  method HasCompletedRecord(records: seq<RecordRow>, packages: map<nat, Package>, publishedCount: nat)
    returns (found: bool)
    ensures found <==> SomeRecordCompletes(records, packages, publishedCount)
  {
    found := false;
    if publishedCount > 0 {
      var i := 0;
      while i < |records| && i < 25
        invariant 0 <= i <= |records|
        invariant forall j :: 0 <= j < i && j < 25 ==> |CompletedCategoryIds(records[j], packages)| < publishedCount
        invariant i <= 25
      {
        if |CompletedCategoryIds(records[i], packages)| >= publishedCount {
          found := true;
          return;
        }
        i := i + 1;
      }
    }
  }

  predicate SomeRecordCompletes(records: seq<RecordRow>, packages: map<nat, Package>, publishedCount: nat)
  {
    publishedCount > 0 && exists i :: (0 <= i < |records| && i < 25
      && |CompletedCategoryIds(records[i], packages)| >= publishedCount)
  }

  /** allComplete: some category is listed and the record covers at least as many. */
  predicate AllComplete(listed: nat, completed: set<nat>)
  {
    listed > 0 && |completed| >= listed
  }

  /**
   * allComplete compares counts only: a record whose attempts used a
   * package since moved back to draft counts that package's category, so
   * the published category can be missing while allComplete holds.
   */
  lemma AllCompleteByCountOnly()
    ensures var packages := map[1 := Package(1, Published, "A", 30, []), 2 := Package(2, Draft, "B", 30, [])];
      var r := RecordRow(7, 3, 0, None, None, [AttemptRow(9, 2, Some(80), Some("B"), Some("B"), Some(5))]);
      && PublishedCategoryIds(packages) == {1}
      && CompletedCategoryIds(r, packages) == {2}
      && AllComplete(|PublishedCategoryIds(packages)|, CompletedCategoryIds(r, packages))
      && 1 !in CompletedCategoryIds(r, packages)
  {
    var packages := map[1 := Package(1, Published, "A", 30, []), 2 := Package(2, Draft, "B", 30, [])];
    var r := RecordRow(7, 3, 0, None, None, [AttemptRow(9, 2, Some(80), Some("B"), Some("B"), Some(5))]);
    assert packages[1].status == Published;
    assert CompletedCategoryIds(r, packages) == {2} by {
      assert r.attempts[0].packageId == 2;
    }
    assert {1} == PublishedCategoryIds(packages) by {
      assert 1 in packages && packages[1].status == Published && packages[1].categoryId == 1;
    }
  }

  /** Coverage of the published categories, which the count comparison stands in for. */
  predicate CoversPublished(published: set<nat>, completed: set<nat>)
  {
    published != {} && published <= completed
  }

  /** Covering every published category is enough for allComplete, but not needed for it. */
  lemma CoverageImpliesAllComplete(published: set<nat>, completed: set<nat>)
    requires CoversPublished(published, completed)
    ensures AllComplete(|published|, completed)
  {
    SubsetCard(published, completed);
  }

  lemma SubsetCard(a: set<nat>, b: set<nat>)
    requires a <= b
    ensures |a| <= |b|
  {
    assert b == a + (b - a);
  }

  function Averages(records: seq<RecordRow>): (r: seq<real>)
    ensures |r| <= |records|
  {
    if |records| == 0 then []
    else
      var init := Averages(records[..|records| - 1]);
      match records[|records| - 1].averageScore
        case Some(v) => init + [v]
        case None => init
  }

  function RealSum(xs: seq<real>): real
  {
    if |xs| == 0 then 0.0 else RealSum(xs[..|xs| - 1]) + xs[|xs| - 1]
  }

  function RealMax(xs: seq<real>): (m: real)
    requires |xs| > 0
    ensures forall i :: 0 <= i < |xs| ==> xs[i] <= m
    ensures exists i :: 0 <= i < |xs| && xs[i] == m
  {
    if |xs| == 1 then xs[0]
    else
      var m := RealMax(xs[..|xs| - 1]);
      assert forall i :: 0 <= i < |xs| - 1 ==> xs[..|xs| - 1][i] == xs[i];
      if xs[|xs| - 1] > m then xs[|xs| - 1] else m
  }

  /** overallBest: Math.round of the mean record average, 0 when no record has one. */
  function OverallBest(records: seq<RecordRow>): int
  {
    var avgs := Averages(records);
    if |avgs| == 0 then 0 else MathRound(Mean(avgs))
  }

  /** bestBand: Math.round of the highest record average, null when no record has one. */
  function BestBand(records: seq<RecordRow>): (r: Option<int>)
    ensures r.None? <==> |Averages(records)| == 0
  {
    var avgs := Averages(records);
    if |avgs| == 0 then None else Some(MathRound(RealMax(avgs)))
  }

  lemma {:induction false} SumAtMost(xs: seq<real>, m: real)
    requires forall i :: 0 <= i < |xs| ==> xs[i] <= m
    ensures RealSum(xs) <= |xs| as real * m
    decreases |xs|
  {
    if |xs| > 0 {
      SumAtMost(xs[..|xs| - 1], m);
    }
  }

  lemma MathRoundMonotone(x: real, y: real)
    requires x <= y
    ensures MathRound(x) <= MathRound(y)
  {
  }

  /** The rounded mean of the record averages never exceeds the rounded best one. */
  lemma OverallNotAboveBest(records: seq<RecordRow>)
    requires BestBand(records).Some?
    ensures OverallBest(records) <= BestBand(records).value
  {
    MeanNotAboveMax(Averages(records));
  }

  function Mean(xs: seq<real>): real
    requires |xs| > 0
  {
    RealSum(xs) / |xs| as real
  }

  lemma MeanNotAboveMax(xs: seq<real>)
    requires |xs| > 0
    ensures MathRound(Mean(xs)) <= MathRound(RealMax(xs))
  {
    var m := RealMax(xs);
    SumAtMost(xs, m);
    MeanAtMost(xs, m);
    MathRoundMonotone(Mean(xs), m);
  }

  lemma MeanAtMost(xs: seq<real>, m: real)
    requires |xs| > 0 && RealSum(xs) <= |xs| as real * m
    ensures Mean(xs) <= m
  {
    var n := |xs| as real;
    var sum := RealSum(xs);
    assert Mean(xs) == sum / n;
    assert sum / n * n == sum;
  }

  /**
   * findFirst of the live sessions by lastActivity descending: the first
   * running session with the latest activity.
   */
  function LatestLive(sessions: seq<Session>, attempts: map<nat, Attempt>, now: Time): (r: Option<nat>)
    ensures r.Some? ==> (r.value < |sessions| && IsLive(attempts, sessions[r.value], now)
      && forall j :: 0 <= j < |sessions| && IsLive(attempts, sessions[j], now) ==>
           sessions[j].lastActivity <= sessions[r.value].lastActivity)
    ensures r.None? ==> forall j :: 0 <= j < |sessions| ==> !IsLive(attempts, sessions[j], now)
  {
    if |sessions| == 0 then None
    else
      var n := |sessions| - 1;
      var prev := LatestLive(sessions[..n], attempts, now);
      assert forall j :: 0 <= j < n ==> sessions[..n][j] == sessions[j];
      if !IsLive(attempts, sessions[n], now) then prev
      else if prev.None? || sessions[n].lastActivity > sessions[prev.value].lastActivity then Some(n)
      else prev
  }

  function SessionView(s: Session, now: Time): (v: ActiveSessionView)
    ensures v.attemptId == s.attemptId && v.isExpired == (s.expiresAt < now)
  {
    ActiveSessionView(s.attemptId, s.categoryName, s.expiresAt, s.expiresAt < now)
  }

  /** The response of GET /api/student/dashboard/summary. */
  function StudentDashboard(rows: DashboardRows, studentId: nat, now: Time): (reply: DashboardReply)
    ensures reply.UserNotFound? <==> rows.fullName.None?
    ensures reply.Dashboard? ==>
      && |reply.recent| <= 3
      && |reply.categoryList| == |rows.categoryList|
      && reply.recordCount == |rows.records|
      && (reply.activeRecord.Some? <==> |rows.records| > 0)
      && (reply.allComplete ==> |rows.categoryList| > 0)
      && (reply.activeSession.Some? ==> !reply.activeSession.value.isExpired)
      && (reply.bestBand.None? ==> reply.overallBest == 0)
  {
    if rows.fullName.None? then UserNotFound
    else
      var active := ActiveRecordIndex(rows.records);
      var completedIds := if active.Some? then CompletedCategoryIds(rows.records[active.value], rows.packages) else {};
      var statuses := seq(|rows.categoryList|, i requires 0 <= i < |rows.categoryList| =>
        CategoryStatus(rows.categoryList[i].id, rows.categoryList[i].name, rows.categoryList[i].id in completedIds));
      var live := LatestLive(rows.sessions, rows.attempts, now);
      Dashboard(
        rows.fullName.value,
        studentId,
        Recent(rows.byCompletion),
        CategoriesBest(rows.completed),
        statuses,
        OverallBest(rows.records),
        BestBand(rows.records),
        |rows.records|,
        if active.Some? then Some(ActiveRecordView(rows.records[active.value].id, completedIds)) else None,
        AllComplete(|rows.categoryList|, completedIds),
        SomeRecordCompletes(rows.records, rows.packages, |PublishedCategoryIds(rows.packages)|),
        if live.Some? then Some(SessionView(rows.sessions[live.value], now)) else None)
  }
}
