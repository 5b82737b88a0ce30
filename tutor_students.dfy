/**
 * The tutor's student list (GET app/api/tutor/students): per student the
 * best record average, the number of scored records and the time of the
 * latest scored attempt, sorted by a chosen field and cut into a page.
 *
 * The rows are what the route's queries load: the students (role STUDENT),
 * each with all of its attempts and records; the query filters (completed
 * attempts with a positive score, records with an average) are applied
 * here.
 */
module TutorStudents {
  import opened Common
  import opened Db
  import opened Reports
  import opened Ordering
  import opened JsNumber

  datatype StudentRow = StudentRow(
    id: nat,
    fullName: Option<string>,
    email: string,
    attempts: seq<AttemptRow>,
    records: seq<RecordRow>)

  datatype StudentStat = StudentStat(
    id: nat,
    fullName: Option<string>,
    email: string,
    bestAverageScore: Option<real>,
    totalAttempts: nat,
    lastUpdate: Option<Time>)

  /**
   * The search filter { contains: search, mode: 'insensitive' } on fullName
   * or email, with ASCII case ignored; an empty search applies no filter.
   */
  predicate NameOrEmailMatches(fullName: Option<string>, email: string, search: string)
  {
    || search == ""
    || (fullName.Some? && HasSubstring(Lower(fullName.value), Lower(search)))
    || HasSubstring(Lower(email), Lower(search))
  }

  predicate MatchesSearch(s: StudentRow, search: string)
  {
    NameOrEmailMatches(s.fullName, s.email, search)
  }

  function Matching(students: seq<StudentRow>, search: string): (r: seq<StudentRow>)
    ensures |r| <= |students|
    ensures forall s :: s in r <==> s in students && MatchesSearch(s, search)
  {
    if |students| == 0 then []
    else
      var init := Matching(students[..|students| - 1], search);
      var s := students[|students| - 1];
      assert forall x :: x in students <==> x in students[..|students| - 1] || x == s;
      if MatchesSearch(s, search) then init + [s] else init
  }

  /** The records the stats read: those with an average. */
  function ScoredRecords(records: seq<RecordRow>): (r: seq<RecordRow>)
    ensures |r| <= |records|
    ensures forall x :: x in r <==> x in records && x.averageScore.Some?
  {
    if |records| == 0 then []
    else
      var init := ScoredRecords(records[..|records| - 1]);
      var x := records[|records| - 1];
      assert forall y :: y in records <==> y in records[..|records| - 1] || y == x;
      if x.averageScore.Some? then init + [x] else init
  }

  /** new Set(names).size over the completed attempts with a non-empty category name. */
  function CategoryCount(r: RecordRow): nat
  {
    |set i | 0 <= i < |r.attempts| && r.attempts[i].completedAt.Some? && Named(r.attempts[i]) :: r.attempts[i].categoryName.value|
  }

  /** The three values the best-record loop compares: average, category count, creation time. */
  datatype Key = Key(avg: real, categories: int, createdAt: Option<Time>)

  /** bestAvg = 0, bestCategoryCount = -1, bestCreatedAt = null. */
  const Start := Key(0.0, -1, None)

  function KeyOf(r: RecordRow): (k: Key)
    ensures k.categories >= 0 && k.createdAt.Some?
  {
    Key(if r.averageScore.Some? then r.averageScore.value else 0.0, CategoryCount(r), Some(r.createdAt))
  }

  function Keys(records: seq<RecordRow>): (ks: seq<Key>)
    ensures |ks| == |records|
    ensures forall i :: 0 <= i < |ks| ==> ks[i] == KeyOf(records[i])
  {
    seq(|records|, i requires 0 <= i < |records| => KeyOf(records[i]))
  }

  /** isBetter: a higher average, else more categories, else a later creation. */
  predicate IsBetter(k: Key, best: Key)
  {
    || k.avg > best.avg
    || (k.avg == best.avg && k.categories > best.categories)
    || (k.avg == best.avg && k.categories == best.categories
        && (best.createdAt.None? || (k.createdAt.Some? && k.createdAt.value > best.createdAt.value)))
  }

  /** The key the loop ends with, record by record. */
  function BestKeyOf(keys: seq<Key>): Key
  {
    if |keys| == 0 then Start
    else
      var b := BestKeyOf(keys[..|keys| - 1]);
      var k := keys[|keys| - 1];
      if IsBetter(k, b) then k else b
  }

  /** Lexicographic order on keys, a missing creation time lowest. */
  predicate AtMost(k: Key, b: Key)
  {
    || k.avg < b.avg
    || (k.avg == b.avg && k.categories < b.categories)
    || (k.avg == b.avg && k.categories == b.categories
        && (k.createdAt.None? || (b.createdAt.Some? && k.createdAt.value <= b.createdAt.value)))
  }

  predicate WellFormed(keys: seq<Key>)
  {
    forall i :: 0 <= i < |keys| ==> keys[i].categories >= 0 && keys[i].createdAt.Some?
  }

  lemma AtMostTransitive(a: Key, b: Key, c: Key)
    requires AtMost(a, b) && AtMost(b, c)
    ensures AtMost(a, c)
  {
  }

  /**
   * The loop keeps the lexicographic maximum: no record's key and not the
   * starting key is above the key it ends with.
   */
  lemma {:induction false} BestKeyIsMaximum(keys: seq<Key>)
    requires WellFormed(keys)
    ensures AtMost(Start, BestKeyOf(keys))
    ensures forall i :: 0 <= i < |keys| ==> AtMost(keys[i], BestKeyOf(keys))
  {
    if |keys| > 0 {
      var n := |keys| - 1;
      var init := keys[..n];
      assert WellFormed(init) by {
        forall i | 0 <= i < n
          ensures init[i].categories >= 0 && init[i].createdAt.Some?
        {
          assert init[i] == keys[i];
        }
      }
      BestKeyIsMaximum(init);
      var b := BestKeyOf(init);
      var k := keys[n];
      if IsBetter(k, b) {
        assert AtMost(b, k);
        forall i | 0 <= i < |keys|
          ensures AtMost(keys[i], k)
        {
          if i < n {
            assert keys[i] == init[i];
            AtMostTransitive(keys[i], b, k);
          }
        }
        AtMostTransitive(Start, b, k);
      } else {
        forall i | 0 <= i < |keys|
          ensures AtMost(keys[i], b)
        {
          if i < n {
            assert keys[i] == init[i];
          }
        }
      }
    }
  }

  /** The key the loop ends with is the start key or that of one of the records. */
  lemma {:induction false} BestKeyAttained(keys: seq<Key>)
    ensures BestKeyOf(keys) == Start || exists i :: 0 <= i < |keys| && keys[i] == BestKeyOf(keys)
  {
    if |keys| > 0 {
      var n := |keys| - 1;
      BestKeyAttained(keys[..n]);
      if BestKeyOf(keys) != Start && BestKeyOf(keys) != keys[n] {
        var i :| 0 <= i < n && keys[..n][i] == BestKeyOf(keys[..n]);
        assert keys[i] == keys[..n][i];
      }
    }
  }

  /**
   * The best-record loop over the records with an average, with its three
   * variables.
   */
  method PickBestKey(keys: seq<Key>) returns (bestAvg: real, bestCategoryCount: int, bestCreatedAt: Option<Time>)
    ensures Key(bestAvg, bestCategoryCount, bestCreatedAt) == BestKeyOf(keys)
  {
    bestAvg, bestCategoryCount, bestCreatedAt := 0.0, -1, None;
    var i := 0;
    while i < |keys|
      invariant 0 <= i <= |keys|
      invariant Key(bestAvg, bestCategoryCount, bestCreatedAt) == BestKeyOf(keys[..i])
    {
      var rec := keys[i];
      assert keys[..i + 1][..i] == keys[..i];
      if IsBetter(rec, Key(bestAvg, bestCategoryCount, bestCreatedAt)) {
        bestAvg, bestCategoryCount, bestCreatedAt := rec.avg, rec.categories, rec.createdAt;
      }
      i := i + 1;
    }
    assert keys[..i] == keys;
  }

  /**
   * bestAverageScore: the highest average among the records that carry
   * one when it is positive, null otherwise.
   */
  function BestAverageScore(records: seq<RecordRow>): (r: Option<real>)
    ensures r.Some? ==> r.value > 0.0 && exists x :: x in records && x.averageScore == Some(r.value)
    ensures forall x :: x in records && x.averageScore.Some? ==> (r.Some? && x.averageScore.value <= r.value) || (r.None? && x.averageScore.value <= 0.0)
  {
    var scored := ScoredRecords(records);
    var keys := Keys(scored);
    var b := BestKeyOf(keys);
    BestKeyIsMaximum(keys);
    BestKeyAttained(keys);
    forall x | x in records && x.averageScore.Some?
      ensures x.averageScore.value <= b.avg
    {
      var i :| 0 <= i < |scored| && scored[i] == x;
      assert AtMost(keys[i], b);
    }
    if b.avg > 0.0 then
      var i :| 0 <= i < |keys| && keys[i] == b;
      assert scored[i] in records && scored[i].averageScore == Some(b.avg);
      Some(b.avg)
    else None
  }

  /** The completion times the lastUpdate loop reads: completed attempts with a positive score. */
  function CompletionTimes(attempts: seq<AttemptRow>): (ts: seq<Time>)
    ensures |ts| <= |attempts|
    ensures forall t :: t in ts <==> exists a :: a in attempts && a.completedAt == Some(t) && a.totalScore.Some? && a.totalScore.value > 0
  {
    if |attempts| == 0 then []
    else
      var init := CompletionTimes(attempts[..|attempts| - 1]);
      var a := attempts[|attempts| - 1];
      assert forall x :: x in attempts <==> x in attempts[..|attempts| - 1] || x == a;
      if a.completedAt.Some? && a.totalScore.Some? && a.totalScore.value > 0 then init + [a.completedAt.value] else init
  }

  /** The latest of the times; null when there is none. */
  function LatestOf(ts: seq<Time>): (r: Option<Time>)
    ensures r.None? <==> |ts| == 0
    ensures r.Some? ==> r.value in ts && forall t :: t in ts ==> t <= r.value
  {
    if |ts| == 0 then None
    else
      var prev := LatestOf(ts[..|ts| - 1]);
      var t := ts[|ts| - 1];
      assert forall x :: x in ts <==> x in ts[..|ts| - 1] || x == t;
      if prev.None? || t > prev.value then Some(t) else prev
  }

  /** The lastUpdate loop: a time replaces the current one when there is none yet or it is later. */
  method LatestCompletion(ts: seq<Time>) returns (lastUpdate: Option<Time>)
    ensures lastUpdate == LatestOf(ts)
  {
    lastUpdate := None;
    var i := 0;
    while i < |ts|
      invariant 0 <= i <= |ts|
      invariant lastUpdate == LatestOf(ts[..i])
    {
      assert ts[..i + 1][..i] == ts[..i];
      if lastUpdate.None? || ts[i] > lastUpdate.value {
        lastUpdate := Some(ts[i]);
      }
      i := i + 1;
    }
    assert ts[..i] == ts;
  }

  /** One student's row of the list. */
  function StatOf(s: StudentRow): StudentStat
  {
    StudentStat(s.id, s.fullName, s.email, BestAverageScore(s.records), |ScoredRecords(s.records)|,
      LatestOf(CompletionTimes(s.attempts)))
  }

  /** The per-student computation: the best-record loop and the lastUpdate loop. */
  method ComputeStat(s: StudentRow) returns (st: StudentStat)
    ensures st == StatOf(s)
  {
    var scored := ScoredRecords(s.records);
    var bestAvg, bestCategoryCount, bestCreatedAt := PickBestKey(Keys(scored));
    var lastUpdate := LatestCompletion(CompletionTimes(s.attempts));
    st := StudentStat(s.id, s.fullName, s.email, if bestAvg > 0.0 then Some(bestAvg) else None, |scored|, lastUpdate);
  }

  /** The fields the list can be sorted by; any other name reads undefined on every row. */
  datatype SortField = LastUpdate | BestAverage | TotalAttempts | FullName | Email | Id | Unsortable

  /** searchParams.get('sortField') || 'lastUpdate' */
  function FieldOf(raw: Option<string>): SortField
  {
    var f := if raw.Some? && raw.value != "" then raw.value else "lastUpdate";
    if f == "lastUpdate" then LastUpdate
    else if f == "bestAverageScore" then BestAverage
    else if f == "totalAttempts" then TotalAttempts
    else if f == "fullName" then FullName
    else if f == "email" then Email
    else if f == "id" then Id
    else Unsortable
  }

  /** The two orders in use: by one field, and the preview's most-recent-first. */
  datatype Order = ByField(field: SortField, ascending: bool) | MostRecent

  /** sortOrder === 'asc' is ascending; anything else, absent included, is descending. */
  function OrderOf(fieldRaw: Option<string>, orderRaw: Option<string>): Order
  {
    ByField(FieldOf(fieldRaw), orderRaw == Some("asc"))
  }

  /** What the comparator compares for a field. */
  datatype SortKey = Num(n: real) | Text(t: string) | NoKey

  function KeyFor(s: StudentStat, f: SortField): SortKey
  {
    match f
      case LastUpdate => Num(LastTime(s) as real)
      case BestAverage => Num(if s.bestAverageScore.Some? then s.bestAverageScore.value else 0.0)
      case TotalAttempts => Num(s.totalAttempts as real)
      case FullName => Text(if s.fullName.Some? then s.fullName.value else "")
      case Email => Text(s.email)
      case Id => Text(NatString(s.id))
      case Unsortable => NoKey
  }

  /** lastUpdate ? lastUpdate.getTime() : 0 */
  function LastTime(s: StudentStat): Time
  {
    if s.lastUpdate.Some? then s.lastUpdate.value else 0
  }

  predicate KeyLt(a: SortKey, b: SortKey)
  {
    match (a, b)
      case (Num(x), Num(y)) => x < y
      case (Text(x), Text(y)) => StrLt(x, y)
      case _ => false
  }

  /** x ?? -Infinity is strictly greater than y ?? -Infinity. */
  predicate BestAbove(x: Option<real>, y: Option<real>)
  {
    x.Some? && (y.None? || x.value > y.value)
  }

  /** a must come before b: the comparator returns a negative number for (a, b). */
  predicate Precedes(a: StudentStat, b: StudentStat, ord: Order)
  {
    match ord
      case ByField(f, asc) =>
        if asc then KeyLt(KeyFor(a, f), KeyFor(b, f)) else KeyLt(KeyFor(b, f), KeyFor(a, f))
      case MostRecent =>
        LastTime(a) > LastTime(b) || (LastTime(a) == LastTime(b) && BestAbove(a.bestAverageScore, b.bestAverageScore))
  }

  lemma PrecedesAsymmetric(a: StudentStat, b: StudentStat, ord: Order)
    requires Precedes(a, b, ord)
    ensures !Precedes(b, a, ord)
  {
    if ord.ByField? {
      var ka, kb := KeyFor(a, ord.field), KeyFor(b, ord.field);
      if ka.Text? && kb.Text? {
        if ord.ascending {
          StrLtAsymmetric(ka.t, kb.t);
        } else {
          StrLtAsymmetric(kb.t, ka.t);
        }
      }
    }
  }

  lemma TextNotBelowTransitive(x: string, y: string, z: string)
    requires !StrLt(x, y) && !StrLt(y, z)
    ensures !StrLt(x, z)
  {
    StrLtTotal(x, y);
    StrLtTotal(y, z);
    if StrLt(x, z) {
      if StrLt(y, x) {
        StrLtTransitive(y, x, z);
      }
    }
  }

  /** Not coming before is transitive: the comparator is a weak order. */
  lemma NotPrecedesTransitive(a: StudentStat, b: StudentStat, c: StudentStat, ord: Order)
    requires !Precedes(a, b, ord) && !Precedes(b, c, ord)
    ensures !Precedes(a, c, ord)
  {
    if ord.ByField? {
      var ka, kb, kc := KeyFor(a, ord.field), KeyFor(b, ord.field), KeyFor(c, ord.field);
      if ka.Text? && kb.Text? && kc.Text? {
        if ord.ascending {
          TextNotBelowTransitive(ka.t, kb.t, kc.t);
        } else {
          TextNotBelowTransitive(kc.t, kb.t, ka.t);
        }
      }
    }
  }

  /** No row comes before an earlier one. */
  predicate Sorted(s: seq<StudentStat>, ord: Order)
  {
    forall i, j :: 0 <= i < j < |s| ==> !Precedes(s[j], s[i], ord)
  }

  /** x placed before the first row it does not come after. */
  function Insert(x: StudentStat, s: seq<StudentStat>, ord: Order): (r: seq<StudentStat>)
    requires Sorted(s, ord)
    ensures multiset(r) == multiset(s) + multiset{x}
    ensures Sorted(r, ord)
  {
    if |s| == 0 then [x]
    else if !Precedes(s[0], x, ord) then
      assert forall j :: 0 <= j < |s| ==> !Precedes(s[j], x, ord) by {
        forall j | 0 < j < |s|
          ensures !Precedes(s[j], x, ord)
        {
          NotPrecedesTransitive(s[j], s[0], x, ord);
        }
      }
      [x] + s
    else
      assert s == [s[0]] + s[1..];
      var rest := Insert(x, s[1..], ord);
      PrecedesAsymmetric(s[0], x, ord);
      assert forall j :: 0 <= j < |rest| ==> !Precedes(rest[j], s[0], ord) by {
        forall j | 0 <= j < |rest|
          ensures !Precedes(rest[j], s[0], ord)
        {
          assert rest[j] in multiset(rest);
          assert rest[j] in s[1..] || rest[j] == x;
        }
      }
      [s[0]] + rest
  }

  /** filtered.sort(comparator): a sorted rearrangement of the rows. */
  function SortStats(xs: seq<StudentStat>, ord: Order): (r: seq<StudentStat>)
    ensures multiset(r) == multiset(xs)
    ensures |r| == |xs|
    ensures Sorted(r, ord)
  {
    if |xs| == 0 then []
    else
      assert xs == [xs[0]] + xs[1..];
      Insert(xs[0], SortStats(xs[1..], ord), ord)
  }

  /** A field no row has leaves the list in its loaded order. */
  lemma {:induction false} UnsortableKeepsOrder(xs: seq<StudentStat>, asc: bool)
    ensures SortStats(xs, ByField(Unsortable, asc)) == xs
  {
    if |xs| > 0 {
      UnsortableKeepsOrder(xs[1..], asc);
      var s := SortStats(xs[1..], ByField(Unsortable, asc));
      if |s| > 0 {
        assert !Precedes(s[0], xs[0], ByField(Unsortable, asc));
      }
      assert xs == [xs[0]] + xs[1..];
    }
  }

  /** Array.prototype.slice's index: NaN reads as 0, a negative one counts from the end, both clamped. */
  function SliceIndex(rel: Option<int>, len: nat): (k: nat)
    ensures k <= len
  {
    var r := if rel.Some? then rel.value else 0;
    if r < 0 then (if len + r < 0 then 0 else len + r)
    else if r > len then len
    else r
  }

  /** xs.slice(start, end) */
  function JsSlice<T>(xs: seq<T>, start: Option<int>, end: Option<int>): (r: seq<T>)
    ensures |r| <= |xs|
  {
    var k, e := SliceIndex(start, |xs|), SliceIndex(end, |xs|);
    if k < e then xs[k..e] else []
  }

  /** slice(0, n) is the first n rows, or all of them when there are fewer. */
  lemma SliceFromStart<T>(xs: seq<T>, n: nat)
    ensures JsSlice(xs, Some(0), Some(n)) == xs[..if n <= |xs| then n else |xs|]
  {
  }

  function MulInt(a: int, b: int): int
  {
    a * b
  }

  /** filtered.slice((page - 1) * pageSize, (page - 1) * pageSize + pageSize); NaN on either side gives []. */
  function PageSlice<T>(xs: seq<T>, page: Option<int>, size: Option<int>): (r: seq<T>)
    ensures page.None? || size.None? ==> r == []
  {
    if page.None? || size.None? then []
    else
      var skip := MulInt(page.value - 1, size.value);
      JsSlice(xs, Some(skip), Some(skip + size.value))
  }

  /** For a page and a size of at least 1 the slice is the page the numbers name. */
  lemma PageSliceIsPage<T>(xs: seq<T>, page: int, size: int)
    requires page >= 1 && size >= 1
    ensures MulInt(page - 1, size) >= 0
    ensures PageSlice(xs, Some(page), Some(size)) == SkipTake(xs, MulInt(page - 1, size), size)
  {
    MulMonotone(0, page - 1, size);
  }

  /** Page 0 is always empty. */
  lemma PageZeroEmpty<T>(xs: seq<T>, size: int)
    ensures PageSlice(xs, Some(0), Some(size)) == []
  {
    assert MulInt(0 - 1, size) == -size;
  }

  /** A negative page counts from the end: page -1 of size 10 over 25 rows holds rows 5 to 14. */
  lemma NegativePageFromEnd<T>(xs: seq<T>)
    requires |xs| == 25
    ensures PageSlice(xs, Some(-1), Some(10)) == xs[5..15]
  {
    assert MulInt(-1 - 1, 10) == -20;
  }

  /** Math.ceil(total / pageSize); null (a non-finite number) for a zero or NaN size. */
  function JsTotalPages(total: nat, size: Option<int>): (r: Option<int>)
    ensures size.Some? && size.value > 0 ==> r == Some(CeilDiv(total, size.value))
    ensures size.None? || size.value == 0 ==> r.None?
  {
    if size.None? || size.value == 0 then None
    else if size.value > 0 then Some(CeilDiv(total, size.value))
    else Some(-(total / -size.value))
  }

  datatype StudentsReply =
    | StudentsPage(students: seq<StudentStat>, page: Option<int>, pageSize: Option<int>, total: nat, totalPages: Option<int>)
    | Unauthorized
    | Forbidden

  /** searchParams.get(name) || fallback, read with parseInt. */
  function QueryNumber(raw: Option<string>, fallback: string): Option<int>
  {
    ParseInt(if raw.Some? && raw.value != "" then raw.value else fallback)
  }

  /** The stats of the listed students, in their loaded order. */
  function StatsOf(students: seq<StudentRow>): (r: seq<StudentStat>)
    ensures |r| == |students|
    ensures forall i :: 0 <= i < |r| ==> r[i] == StatOf(students[i])
  {
    MapSeq(StatOf, students)
  }

  /** f applied to each element, in order. */
  function MapSeq<A, B>(f: A -> B, xs: seq<A>): (r: seq<B>)
    ensures |r| == |xs|
    ensures forall i :: 0 <= i < |xs| ==> r[i] == f(xs[i])
  {
    seq(|xs|, i requires 0 <= i < |xs| => f(xs[i]))
  }

  lemma MapSeqStep<A, B>(f: A -> B, xs: seq<A>, i: nat)
    requires i < |xs|
    ensures MapSeq(f, xs[..i + 1]) == MapSeq(f, xs[..i]) + [f(xs[i])]
  {
    var a := MapSeq(f, xs[..i + 1]);
    var b := MapSeq(f, xs[..i]) + [f(xs[i])];
    forall j | 0 <= j < i + 1
      ensures a[j] == b[j]
    {
      assert xs[..i + 1][j] == xs[j];
      if j < i {
        assert xs[..i][j] == xs[j];
      }
    }
  }

  /**
   * The reply of GET /api/tutor/students for a staff user: every student
   * matching the search gets its stats; the stats are sorted by the
   * requested field and the requested page of them is returned with the
   * total count.
   */
  function StudentsPageOf(students: seq<StudentRow>, search: Option<string>,
                          pageRaw: Option<string>, sizeRaw: Option<string>,
                          fieldRaw: Option<string>, orderRaw: Option<string>): (reply: StudentsReply)
    ensures reply.StudentsPage?
    ensures reply.total == |Matching(students, if search.Some? then search.value else "")|
    ensures reply.page == QueryNumber(pageRaw, "1") && reply.pageSize == QueryNumber(sizeRaw, "10")
    ensures |reply.students| <= reply.total
    ensures reply.totalPages == JsTotalPages(reply.total, reply.pageSize)
  {
    var listed := Matching(students, if search.Some? then search.value else "");
    var page, pageSize := QueryNumber(pageRaw, "1"), QueryNumber(sizeRaw, "10");
    var sorted := SortStats(StatsOf(listed), OrderOf(fieldRaw, orderRaw));
    StudentsPage(PageSlice(sorted, page, pageSize), page, pageSize, |listed|, JsTotalPages(|listed|, pageSize))
  }

  /** studentsWithStats: the per-student computation over the listed students, in order. */
  method ComputeStats(listed: seq<StudentRow>) returns (stats: seq<StudentStat>)
    ensures stats == StatsOf(listed)
  {
    stats := [];
    var i := 0;
    while i < |listed|
      invariant 0 <= i <= |listed|
      invariant stats == StatsOf(listed[..i])
    {
      var st := ComputeStat(listed[i]);
      StatsStep(listed, i);
      stats := stats + [st];
      i := i + 1;
    }
    assert listed[..i] == listed;
  }

  /** One more student adds its stats at the end. */
  lemma StatsStep(listed: seq<StudentRow>, i: nat)
    requires i < |listed|
    ensures StatsOf(listed[..i + 1]) == StatsOf(listed[..i]) + [StatOf(listed[i])]
  {
    MapSeqStep(StatOf, listed, i);
  }

  /** GET /api/tutor/students: the role checks, then the per-student loop, the sort and the page. */
  method ListStudents(user: Option<Role>, students: seq<StudentRow>, search: Option<string>,
                      pageRaw: Option<string>, sizeRaw: Option<string>,
                      fieldRaw: Option<string>, orderRaw: Option<string>) returns (reply: StudentsReply)
    ensures reply.Unauthorized? <==> user.None?
    ensures reply.Forbidden? <==> user.Some? && !IsStaff(user.value)
    ensures reply.StudentsPage? ==> reply == StudentsPageOf(students, search, pageRaw, sizeRaw, fieldRaw, orderRaw)
  {
    if user.None? {
      return Unauthorized;
    }
    if !IsStaff(user.value) {
      return Forbidden;
    }
    var page := QueryNumber(pageRaw, "1");
    var pageSize := QueryNumber(sizeRaw, "10");
    var listed := Matching(students, if search.Some? then search.value else "");
    var stats := ComputeStats(listed);
    var sorted := SortStats(stats, OrderOf(fieldRaw, orderRaw));
    reply := StudentsPage(PageSlice(sorted, page, pageSize), page, pageSize, |listed|, JsTotalPages(|listed|, pageSize));
  }

  /** Every listed student sits at one place of the sorted list, on the page its position names. */
  lemma ListedOnItsPage(students: seq<StudentRow>, search: string, ord: Order, s: StudentRow, size: int)
    requires s in Matching(students, search) && size >= 1
    ensures var sorted := SortStats(StatsOf(Matching(students, search)), ord);
      exists k :: 0 <= k < |sorted| && sorted[k] == StatOf(s)
        && var page := k / size + 1;
          k % size < |PageSlice(sorted, Some(page), Some(size))|
          && PageSlice(sorted, Some(page), Some(size))[k % size] == StatOf(s)
  {
    var sorted := SortStats(StatsOf(Matching(students, search)), ord);
    var k := SortedPosition(students, search, ord, s);
    OnPage(sorted, size, k);
  }

  lemma SortedPosition(students: seq<StudentRow>, search: string, ord: Order, s: StudentRow) returns (k: nat)
    requires s in Matching(students, search)
    ensures var sorted := SortStats(StatsOf(Matching(students, search)), ord);
      k < |sorted| && sorted[k] == StatOf(s)
  {
    var listed := Matching(students, search);
    var stats := StatsOf(listed);
    var sorted := SortStats(stats, ord);
    var j :| 0 <= j < |listed| && listed[j] == s;
    assert stats[j] == StatOf(s);
    assert StatOf(s) in multiset(stats);
    assert StatOf(s) in multiset(sorted);
    k :| 0 <= k < |sorted| && sorted[k] == StatOf(s);
  }

  lemma OnPage<T>(xs: seq<T>, size: int, k: nat)
    requires size >= 1 && k < |xs|
    ensures var page := k / size + 1;
      k % size < |PageSlice(xs, Some(page), Some(size))| && PageSlice(xs, Some(page), Some(size))[k % size] == xs[k]
  {
    var page := k / size + 1;
    PageSliceIsPage(xs, page, size);
    assert MulInt(page - 1, size) == (page - 1) * size;
    PageOfPosition(xs, size, k);
  }
}
