/**
 * The student's test history (GET app/api/student/test-records): the
 * records that hold at least one completed attempt, paged and sorted by
 * creation time, each numbered by its position in creation order and
 * summarised per category; on the first page also the best record.
 *
 * rows are the student's records as the route's queries load them, after
 * expired sessions have been auto-submitted: in creation order, each with
 * its completed attempts in completion order.
 */
module StudentRecords {
  import opened Common
  import opened Scoring
  import opened Db
  import opened Reports
  import opened Ordering
  import opened JsNumber

  datatype CategoryScore = CategoryScore(name: string, score: real)

  datatype RecordSummary = RecordSummary(
    id: nat,
    title: string,
    averageScore: real,
    date: Time,
    categories: seq<CategoryScore>,
    attemptsCount: nat,
    attemptId: Option<nat>)

  datatype BestSummary = BestSummary(
    id: nat,
    title: string,
    averageScore: real,
    date: Time,
    categories: seq<CategoryScore>,
    attemptId: nat)

  datatype TestRecordsReply =
    | TestRecords(records: seq<RecordSummary>, bestScore: Option<BestSummary>,
                  page: int, pageSize: int, total: nat, totalPages: nat)
    | LoadFailed

  /** searchParams.get(name) || fallback, read with parseInt(…, 10). */
  function QueryInt(raw: Option<string>, fallback: string): Option<int>
  {
    match raw
      case Some(s) => if s != "" then ParseInt(s) else ParseInt(fallback)
      case None => ParseInt(fallback)
  }

  /** Math.max(1, parseInt(page || '1')); None stands for NaN. */
  function PageParam(raw: Option<string>): (r: Option<int>)
    ensures r.Some? ==> r.value >= 1
    ensures QueryInt(raw, "1").None? <==> r.None?
  {
    match QueryInt(raw, "1")
      case None => None
      case Some(v) => Some(if v < 1 then 1 else v)
  }

  /** Math.max(1, Math.min(50, parseInt(pageSize || '10'))); None stands for NaN. */
  function PageSizeParam(raw: Option<string>): (r: Option<int>)
    ensures r.Some? ==> 1 <= r.value <= 50
    ensures QueryInt(raw, "10").None? <==> r.None?
  {
    match QueryInt(raw, "10")
      case None => None
      case Some(v) => Some(if v > 50 then 50 else if v < 1 then 1 else v)
  }

  /** Without the parameters the route serves page 1 of 10 records. */
  lemma DefaultParams()
    ensures PageParam(None) == Some(1)
    ensures PageSizeParam(None) == Some(10)
  {
    ParseIntOne();
    ParseIntTen();
  }

  /** (sort || 'desc').toLowerCase() === 'asc'. */
  predicate SortAscending(raw: Option<string>)
  {
    match raw
      case Some(s) => s != "" && Lower(s) == "asc"
      case None => false
  }

  /** The records shown at all: those holding a completed attempt. */
  function Listed(rows: seq<RecordRow>): (r: seq<RecordRow>)
    ensures forall x :: x in r <==> x in rows && |x.attempts| > 0
    ensures |r| <= |rows|
  {
    if |rows| == 0 then []
    else
      var init := Listed(rows[..|rows| - 1]);
      var last := rows[|rows| - 1];
      assert forall x :: x in rows <==> x in rows[..|rows| - 1] || x == last;
      if |last.attempts| > 0 then init + [last] else init
  }

  function Reverse<T>(xs: seq<T>): (r: seq<T>)
    ensures |r| == |xs|
    ensures forall i :: 0 <= i < |xs| ==> r[i] == xs[|xs| - 1 - i]
  {
    if |xs| == 0 then [] else [xs[|xs| - 1]] + Reverse(xs[..|xs| - 1])
  }

  /** The listing in the requested direction of creation time. */
  function Ordered(listed: seq<RecordRow>, ascending: bool): (r: seq<RecordRow>)
    ensures |r| == |listed|
  {
    if ascending then listed else Reverse(listed)
  }

  /** The first position of a record with this id. */
  function IndexOfId(xs: seq<RecordRow>, id: nat): (r: Option<nat>)
    ensures r.Some? ==> (r.value < |xs| && xs[r.value].id == id
      && forall j :: 0 <= j < r.value ==> xs[j].id != id)
    ensures r.None? ==> forall j :: 0 <= j < |xs| ==> xs[j].id != id
  {
    if |xs| == 0 then None
    else if xs[0].id == id then Some(0)
    else match IndexOfId(xs[1..], id)
      case None => None
      case Some(k) => Some(k + 1)
  }

  /** recordAttemptNumbers[id] || 1: the 1-based position in creation order. */
  function AttemptNumber(listed: seq<RecordRow>, id: nat): (r: nat)
    ensures r >= 1
  {
    match IndexOfId(listed, id)
      case Some(i) => i + 1
      case None => 1
  }

  predicate DistinctIds(xs: seq<RecordRow>)
  {
    forall i, j :: 0 <= i < j < |xs| ==> xs[i].id != xs[j].id
  }

  /** With distinct ids the listing is numbered 1, 2, … in creation order. */
  lemma AttemptNumbering(listed: seq<RecordRow>, i: nat)
    requires DistinctIds(listed) && i < |listed|
    ensures AttemptNumber(listed, listed[i].id) == i + 1
  {
    var r := IndexOfId(listed, listed[i].id);
    assert r.Some?;
    assert listed[r.value].id == listed[i].id;
  }

  /** The distinct category names in code-unit order. */
  function SortedCategoryNames(attempts: seq<AttemptRow>): (names: seq<string>)
    ensures StrictlySorted(names)
    ensures forall k :: k in names <==> k in CategoryNames(attempts)
  {
    var d := Distinct(CatNames(attempts));
    var names := SortNames(d);
    forall k
      ensures k in names <==> k in CategoryNames(attempts)
    {
      var cn := CatNames(attempts);
      if k in names {
        assert k in multiset(names);
        assert k in d;
        var i :| 0 <= i < |cn| && cn[i] == k;
        assert CatName(attempts[i]) == k;
      }
      if k in CategoryNames(attempts) {
        var i :| 0 <= i < |attempts| && CatName(attempts[i]) == k;
        assert cn[i] == k;
        assert k in d;
        assert k in multiset(d);
      }
    }
    names
  }

  function NamesOf(r: seq<CategoryScore>): set<string>
  {
    set i | 0 <= i < |r| :: r[i].name
  }

  predicate NameOrdered(r: seq<CategoryScore>)
  {
    forall i, j :: 0 <= i < j < |r| ==> StrLt(r[i].name, r[j].name)
  }

  predicate ScoresAreTotals(attempts: seq<AttemptRow>, r: seq<CategoryScore>)
  {
    forall i :: 0 <= i < |r| ==> r[i].score == ScoreOfCategory(attempts, r[i].name) as real
  }

  /**
   * Object.entries(categoryScores) mapped to {name, score} with the score
   * rounded to cents, sorted by name: one entry per category, in name
   * order, each with its category's total (whole numbers need no rounding).
   */
  function Categories(attempts: seq<AttemptRow>): (r: seq<CategoryScore>)
    ensures NameOrdered(r)
    ensures NamesOf(r) == CategoryNames(attempts)
    ensures ScoresAreTotals(attempts, r)
  {
    var totals := CategoryTotals(attempts);
    var names := SortedCategoryNames(attempts);
    var r := seq(|names|, i requires 0 <= i < |names| => CategoryScore(names[i], RoundCents(totals[names[i]] as real)));
    CategoryRows(attempts, names, r);
    r
  }

  /** The rows built from the sorted names and the totals are in name order, one per category, with its total. */
  lemma CategoryRows(attempts: seq<AttemptRow>, names: seq<string>, r: seq<CategoryScore>)
    requires names == SortedCategoryNames(attempts) && |r| == |names|
    requires forall i :: 0 <= i < |r| ==>
      r[i] == CategoryScore(names[i], RoundCents(ScoreOfCategory(attempts, names[i]) as real))
    ensures NameOrdered(r)
    ensures NamesOf(r) == CategoryNames(attempts)
    ensures ScoresAreTotals(attempts, r)
  {
    forall i | 0 <= i < |r|
      ensures r[i].score == ScoreOfCategory(attempts, r[i].name) as real
    {
      RoundCentsOfInt(ScoreOfCategory(attempts, names[i]));
    }
    forall k | k in names
      ensures k in NamesOf(r)
    {
      var i :| 0 <= i < |names| && names[i] == k;
      assert r[i].name == k;
    }
  }

  function Title(n: nat): string
  {
    "Attempt " + NatString(n)
  }

  function AverageOrZero(r: RecordRow): real
  {
    match r.averageScore
      case Some(v) => v
      case None => 0.0
  }

  /** One listed record as the route reports it. */
  function Summary(r: RecordRow, number: nat): (s: RecordSummary)
    ensures s.id == r.id && s.title == Title(number) && s.attemptsCount == |r.attempts|
    ensures s.date == LatestDate(r.attempts)
    ensures s.averageScore == RoundCents(AverageOrZero(r))
    ensures s.attemptId.Some? <==> |r.attempts| > 0
    ensures s.attemptId.Some? ==> s.attemptId.value == r.attempts[|r.attempts| - 1].id
  {
    RecordSummary(r.id, Title(number), RoundCents(AverageOrZero(r)), LatestDate(r.attempts),
      Categories(r.attempts), |r.attempts|,
      if |r.attempts| > 0 then Some(r.attempts[|r.attempts| - 1].id) else None)
  }

  /** Records that can be the best: a completed attempt and a non-null average. */
  function Candidates(rows: seq<RecordRow>): (r: seq<RecordRow>)
    ensures forall x :: x in r <==> x in rows && |x.attempts| > 0 && x.averageScore.Some?
    ensures forall i :: 0 <= i < |r| ==> r[i].averageScore.Some?
  {
    if |rows| == 0 then []
    else
      var init := Candidates(rows[..|rows| - 1]);
      var last := rows[|rows| - 1];
      assert forall x :: x in rows <==> x in rows[..|rows| - 1] || x == last;
      if |last.attempts| > 0 && last.averageScore.Some? then init + [last] else init
  }

  /** new Set(attempts.map(a => a.categoryName).filter(Boolean)).size */
  function CategoryCount(r: RecordRow): nat
  {
    |set i | 0 <= i < |r.attempts| && Named(r.attempts[i]) :: r.attempts[i].categoryName.value|
  }

  /** a displaces b: a higher average, or the same average over more categories. */
  predicate Beats(a: RecordRow, b: RecordRow)
  {
    AverageOrZero(a) > AverageOrZero(b)
    || (AverageOrZero(a) == AverageOrZero(b) && CategoryCount(a) > CategoryCount(b))
  }

  /**
   * cands[i] is the best record: nothing beats it, and it beats every
   * earlier record, so among equals the oldest is kept.
   */
  predicate IsBest(cands: seq<RecordRow>, i: nat)
  {
    i < |cands|
    && (forall j :: 0 <= j < |cands| ==> !Beats(cands[j], cands[i]))
    && (forall j :: 0 <= j < i ==> Beats(cands[i], cands[j]))
  }

  /** At most one record is the best. */
  lemma BestUnique(cands: seq<RecordRow>, i: nat, j: nat)
    requires IsBest(cands, i) && IsBest(cands, j)
    ensures i == j
  {
    forall a, b | 0 <= a < b < |cands| && IsBest(cands, a)
      ensures !IsBest(cands, b)
    {
      assert !Beats(cands[b], cands[a]);
    }
  }

  lemma BeatsTransitive(a: RecordRow, b: RecordRow, c: RecordRow)
    requires Beats(a, b) && Beats(b, c)
    ensures Beats(a, c)
  {
  }

  /** Two records neither of which beats the other are beaten by the same records. */
  lemma BeatsTie(c: RecordRow, a: RecordRow, b: RecordRow)
    requires !Beats(a, b) && !Beats(b, a) && Beats(c, a)
    ensures Beats(c, b)
  {
    assert AverageOrZero(a) == AverageOrZero(b);
    assert CategoryCount(a) == CategoryCount(b);
  }

  /** Extending the candidates by one keeps the best of the prefix unless the new one beats it. */
  lemma BestStep(cands: seq<RecordRow>, n: nat, k: nat)
    requires n < |cands| && IsBest(cands[..n], k)
    ensures Beats(cands[n], cands[k]) ==> IsBest(cands[..n + 1], n)
    ensures !Beats(cands[n], cands[k]) ==> IsBest(cands[..n + 1], k)
  {
    var p, q := cands[..n], cands[..n + 1];
    assert forall j :: 0 <= j < n ==> q[j] == p[j];
    if Beats(cands[n], cands[k]) {
      forall j | 0 <= j < n
        ensures Beats(q[n], q[j])
      {
        if j != k {
          if !Beats(p[k], p[j]) {
            assert j > k;
            BeatsTie(q[n], p[k], p[j]);
          } else {
            BeatsTransitive(q[n], p[k], p[j]);
          }
        }
      }
      forall j | 0 <= j < n + 1
        ensures !Beats(q[j], q[n])
      {
        if j < n && Beats(q[j], q[n]) {
          BeatsTransitive(q[j], q[n], p[k]);
        }
      }
    }
  }

  /** The best record's position, as the loop of the route leaves it. */
  function BestIndex(cands: seq<RecordRow>): (r: Option<nat>)
    ensures r.None? <==> |cands| == 0
    ensures r.Some? ==> IsBest(cands, r.value)
    decreases |cands|
  {
    if |cands| == 0 then None
    else
      var n := |cands| - 1;
      assert cands[..n + 1] == cands;
      if n == 0 then Some(0)
      else
        var k := BestIndex(cands[..n]).value;
        assert cands[..n][..n] == cands[..n];
        BestStep(cands, n, k);
        if Beats(cands[n], cands[k]) then Some(n) else Some(k)
  }

  /**
   * The best-record loop: bestAvg starts at -Infinity, so the first
   * candidate is taken; a later one replaces it only when it beats it.
   */
  method PickBest(cands: seq<RecordRow>) returns (best: Option<nat>)
    ensures best.None? <==> |cands| == 0
    ensures best.Some? ==> IsBest(cands, best.value)
    ensures best == BestIndex(cands)
  {
    best := None;
    var bestAvg: real := 0.0;
    var bestCategoryCount: int := -1;
    var i := 0;
    while i < |cands|
      invariant 0 <= i <= |cands|
      invariant best.None? <==> i == 0
      invariant best.Some? ==> (IsBest(cands[..i], best.value)
        && bestAvg == AverageOrZero(cands[best.value]) && bestCategoryCount == CategoryCount(cands[best.value]))
    {
      var avg := AverageOrZero(cands[i]);
      var categoryCount := CategoryCount(cands[i]);
      if best.None? {
        assert cands[..1] == [cands[0]];
        best, bestAvg, bestCategoryCount := Some(i), avg, categoryCount;
      } else {
        BestStep(cands, i, best.value);
        if avg > bestAvg || (avg == bestAvg && categoryCount > bestCategoryCount) {
          best, bestAvg, bestCategoryCount := Some(i), avg, categoryCount;
        }
      }
      i := i + 1;
    }
    assert cands[..i] == cands;
    if best.Some? {
      BestUnique(cands, best.value, BestIndex(cands).value);
    }
  }

  /**
   * The reduce over the best record's attempts: the first attempt whose
   * completion time is the latest.
   */
  function FirstLatest(attempts: seq<AttemptRow>): (k: nat)
    requires |attempts| > 0
    ensures k < |attempts|
    ensures forall j :: 0 <= j < |attempts| ==> CompletedTime(attempts[j]) <= CompletedTime(attempts[k])
    ensures forall j :: 0 <= j < k ==> CompletedTime(attempts[j]) < CompletedTime(attempts[k])
  {
    if |attempts| == 1 then 0
    else
      var n := |attempts| - 1;
      var k := FirstLatest(attempts[..n]);
      assert forall j :: 0 <= j < n ==> attempts[..n][j] == attempts[j];
      if CompletedTime(attempts[n]) > CompletedTime(attempts[k]) then n else k
  }

  function BestOf(r: RecordRow, number: nat): (b: BestSummary)
    requires |r.attempts| > 0
    ensures b.id == r.id && b.title == Title(number)
    ensures b.averageScore == RoundCents(AverageOrZero(r))
    ensures b.attemptId == r.attempts[FirstLatest(r.attempts)].id
  {
    BestSummary(r.id, Title(number), RoundCents(AverageOrZero(r)), LatestDate(r.attempts),
      Categories(r.attempts), r.attempts[FirstLatest(r.attempts)].id)
  }

  /** The records of one page, in the requested order, each titled with its place in creation order. */
  function PageRecords(listed: seq<RecordRow>, ascending: bool, skip: nat, size: nat): (r: seq<RecordSummary>)
    ensures |r| <= size
    ensures forall i :: 0 <= i < |r| ==>
      var k := skip + i;
      && k < |listed|
      && r[i].id == Ordered(listed, ascending)[k].id
      && r[i].title == Title(AttemptNumber(listed, Ordered(listed, ascending)[k].id))
  {
    Summaries(listed, SkipTake(Ordered(listed, ascending), skip, size))
  }

  /** The i-th record of a page is the summary of the record skip + i places into the ordered listing. */
  lemma PageRecordAt(listed: seq<RecordRow>, ascending: bool, skip: nat, size: nat, i: nat)
    requires i < |PageRecords(listed, ascending, skip, size)|
    ensures var o := Ordered(listed, ascending);
      && skip + i < |o|
      && PageRecords(listed, ascending, skip, size)[i] == Summary(o[skip + i], AttemptNumber(listed, o[skip + i].id))
  {
    SummariesAt(listed, SkipTake(Ordered(listed, ascending), skip, size), i);
  }

  /** Each shown record summarised with its number in the listing. */
  function Summaries(listed: seq<RecordRow>, shown: seq<RecordRow>): (r: seq<RecordSummary>)
    ensures |r| == |shown|
    ensures forall i :: 0 <= i < |r| ==>
      r[i].id == shown[i].id && r[i].title == Title(AttemptNumber(listed, shown[i].id))
  {
    if |shown| == 0 then []
    else [Summary(shown[0], AttemptNumber(listed, shown[0].id))] + Summaries(listed, shown[1..])
  }

  lemma {:induction false} SummariesAt(listed: seq<RecordRow>, shown: seq<RecordRow>, i: nat)
    requires i < |shown|
    ensures Summaries(listed, shown)[i] == Summary(shown[i], AttemptNumber(listed, shown[i].id))
    decreases i
  {
    if i > 0 {
      SummariesAt(listed, shown[1..], i - 1);
    }
  }

  /** bestScore: only on page 1, and only when some record has a completed attempt and an average. */
  function BestScore(rows: seq<RecordRow>, listed: seq<RecordRow>, page: int): (b: Option<BestSummary>)
    ensures b.Some? <==> page == 1 && |Candidates(rows)| > 0
    ensures b.Some? ==> var cands := Candidates(rows);
      var best := cands[BestIndex(cands).value];
      b.value == BestOf(best, AttemptNumber(listed, best.id))
  {
    var cands := Candidates(rows);
    if page == 1 && |cands| > 0 then
      var r := cands[BestIndex(cands).value];
      Some(BestOf(r, AttemptNumber(listed, r.id)))
    else None
  }

  /** The response of GET /api/student/test-records; NaN paging parameters fail the query. */
  function StudentTestRecords(rows: seq<RecordRow>, pageRaw: Option<string>, sizeRaw: Option<string>,
                              sortRaw: Option<string>): (reply: TestRecordsReply)
    ensures reply.LoadFailed? <==> PageParam(pageRaw).None? || PageSizeParam(sizeRaw).None?
    ensures reply.TestRecords? ==>
      && reply.page == PageParam(pageRaw).value && reply.pageSize == PageSizeParam(sizeRaw).value
      && |reply.records| <= reply.pageSize
      && reply.total == |Listed(rows)|
      && reply.totalPages == CeilDiv(reply.total, reply.pageSize)
      && (reply.bestScore.Some? <==> reply.page == 1 && |Candidates(rows)| > 0)
  {
    var page, size := PageParam(pageRaw), PageSizeParam(sizeRaw);
    if page.None? || size.None? then LoadFailed
    else
      var listed := Listed(rows);
      TestRecords(PageRecords(listed, SortAscending(sortRaw), SkipOf(page.value, size.value), size.value),
        BestScore(rows, listed, page.value), page.value, size.value, |listed|, CeilDiv(|listed|, size.value))
  }

  /** skip: (page - 1) * pageSize. */
  function SkipOf(page: int, size: int): nat
    requires page >= 1 && size >= 1
  {
    MulNat(page - 1, size)
  }

  function MulNat(a: nat, b: nat): nat
  {
    a * b
  }

  /** Rows as the queries load them: distinct records of one student in creation order. */
  predicate CreationOrdered(rows: seq<RecordRow>)
  {
    forall i, j :: 0 <= i < j < |rows| ==> rows[i].createdAt <= rows[j].createdAt
  }

  /**
   * The i-th record of the page starting at skip = (page - 1) * size is the record at position skip + i
   * of the listing in the requested order, titled with its place in creation order.
   */
  lemma PageEntry(rows: seq<RecordRow>, ascending: bool, skip: nat, size: nat, i: nat)
    requires DistinctIds(rows)
    requires i < |PageRecords(Listed(rows), ascending, skip, size)|
    ensures var listed := Listed(rows);
      var k := skip + i;
      var r := PageRecords(listed, ascending, skip, size)[i];
      && k < |listed|
      && r.id == Ordered(listed, ascending)[k].id
      && AttemptNumber(listed, r.id) == if ascending then k + 1 else |listed| - k
  {
    ListedDistinct(rows);
    OrderedNumber(Listed(rows), ascending, skip + i);
  }

  /** In either direction, the record at position k carries its place in creation order. */
  lemma OrderedNumber(listed: seq<RecordRow>, ascending: bool, k: nat)
    requires DistinctIds(listed) && k < |listed|
    ensures AttemptNumber(listed, Ordered(listed, ascending)[k].id) == if ascending then k + 1 else |listed| - k
  {
    if ascending {
      AttemptNumbering(listed, k);
    } else {
      assert Ordered(listed, ascending)[k] == listed[|listed| - 1 - k];
      AttemptNumbering(listed, |listed| - 1 - k);
    }
  }

  lemma {:induction false} ListedDistinct(rows: seq<RecordRow>)
    requires DistinctIds(rows)
    ensures DistinctIds(Listed(rows))
    decreases |rows|
  {
    if |rows| > 0 {
      var init := rows[..|rows| - 1];
      ListedDistinct(init);
      var l := Listed(init);
      var last := rows[|rows| - 1];
      if |last.attempts| > 0 {
        forall j | 0 <= j < |l|
          ensures l[j].id != last.id
        {
          assert l[j] in init;
          var m :| 0 <= m < |init| && init[m] == l[j];
        }
      }
    }
  }

  /** The best record has the highest average among the records with one. */
  lemma BestHasHighestAverage(rows: seq<RecordRow>, x: RecordRow)
    requires x in rows && |x.attempts| > 0 && x.averageScore.Some?
    ensures var cands := Candidates(rows);
      |cands| > 0 && AverageOrZero(x) <= AverageOrZero(cands[BestIndex(cands).value])
  {
    var cands := Candidates(rows);
    assert x in cands;
    var j :| 0 <= j < |cands| && cands[j] == x;
    var b := BestIndex(cands).value;
    assert !Beats(cands[j], cands[b]);
  }
}
