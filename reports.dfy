/**
 * What the reporting routes share: the rows their queries load, the
 * grouping of attempts by the category name snapshot on each attempt,
 * Math.round to cents, and the skip/take and ceil arithmetic of paging.
 *
 * A loaded record row carries the attempts its query included, in the
 * order the query returned them; the ordering and filtering done by the
 * database are stated as properties of those sequences.
 */
module Reports {
  import opened Common
  import opened Scoring
  import opened Db

  datatype AttemptRow = AttemptRow(
    id: nat,
    packageId: nat,
    totalScore: Option<int>,
    categoryName: Option<string>,
    packageTitle: Option<string>,
    completedAt: Option<Time>)

  datatype RecordRow = RecordRow(
    id: nat,
    studentId: nat,
    createdAt: Time,
    averageScore: Option<real>,
    feedback: Option<string>,
    attempts: seq<AttemptRow>)

  /** The loaded row of a stored attempt. */
  function AttemptRowOf(id: nat, a: Attempt): (r: AttemptRow)
    ensures r.id == id && r.totalScore == a.totalScore && r.completedAt == a.completedAt
    ensures r.categoryName == a.categoryName && r.packageTitle == a.packageTitle
  {
    AttemptRow(id, a.packageId, a.totalScore, a.categoryName, a.packageTitle, a.completedAt)
  }

  /** attempt.categoryName || 'Uncategorized': a null or empty name falls back. */
  function CatName(a: AttemptRow): (r: string)
    ensures r != ""
    ensures a.categoryName.Some? && a.categoryName.value != "" ==> r == a.categoryName.value
    ensures a.categoryName.None? || a.categoryName.value == "" ==> r == "Uncategorized"
  {
    match a.categoryName
      case Some(n) => if n != "" then n else "Uncategorized"
      case None => "Uncategorized"
  }

  /** The attempt carries a category name that JavaScript treats as truthy. */
  predicate Named(a: AttemptRow)
  {
    a.categoryName.Some? && a.categoryName.value != ""
  }

  /** new Date(a.completedAt) in milliseconds: null reads as the epoch. */
  function CompletedTime(a: AttemptRow): Time
  {
    match a.completedAt
      case Some(t) => t
      case None => 0
  }

  /** Math.round(x * 100) / 100: the nearest cent, halves rounded up. */
  function RoundCents(x: real): (r: real)
    ensures r - 1.0 / 200.0 <= x < r + 1.0 / 200.0
  {
    MathRound(x * 100.0) as real / 100.0
  }

  /** Rounding to cents keeps a value of at least 1 at least 1. */
  lemma RoundCentsAtLeastOne(x: real)
    requires x >= 1.0
    ensures RoundCents(x) >= 1.0
  {
    var m := MathRound(x * 100.0);
    assert x * 100.0 >= 100.0;
    assert m as real + 1.0 / 2.0 > 100.0;
    assert m >= 100;
  }

  /** Whole numbers are already whole cents. */
  lemma RoundCentsOfInt(n: int)
    ensures RoundCents(n as real) == n as real
  {
    assert MathRound(n as real * 100.0) == n * 100;
  }

  /** Math.ceil(total / pageSize). */
  function CeilDiv(total: nat, size: nat): (r: nat)
    requires size > 0
    ensures total == 0 ==> r == 0
    ensures total > 0 ==> (r - 1) * size < total <= r * size
  {
    (total + size - 1) / size
  }

  /** The rows a query with skip and take returns. */
  function SkipTake<T>(xs: seq<T>, skip: nat, take: nat): (r: seq<T>)
    ensures |r| <= take
    ensures skip + take <= |xs| ==> |r| == take
    ensures forall i :: 0 <= i < |r| ==> skip + i < |xs| && r[i] == xs[skip + i]
  {
    if skip >= |xs| then []
    else if skip + take >= |xs| then xs[skip..]
    else xs[skip..skip + take]
  }

  /**
   * Paging by size places the k-th row at position k % size of page
   * k / size + 1, which is one of the ceil(n / size) pages reported.
   */
  lemma PageOfPosition<T>(xs: seq<T>, size: nat, k: nat)
    requires size > 0 && k < |xs|
    ensures var page := k / size + 1;
      var p := SkipTake(xs, (page - 1) * size, size);
      k % size < |p| && p[k % size] == xs[k]
  {
    var page := k / size + 1;
    assert (page - 1) * size == k / size * size;
    assert k == k / size * size + k % size;
  }

  /** Row k (counting from 0) of n lies on one of the ceil(n / size) pages reported. */
  lemma PageWithinCount(n: nat, size: nat, k: nat)
    requires size > 0 && k < n
    ensures k / size + 1 <= CeilDiv(n, size)
  {
    var q, c := k / size, CeilDiv(n, size);
    assert q * size <= k;
    if q >= c {
      MulMonotone(c, q, size);
    }
  }

  lemma MulMonotone(a: nat, b: nat, m: nat)
    requires a <= b
    ensures a * m <= b * m
  {
  }

  /** The category name each attempt is filed under, in order. */
  function CatNames(attempts: seq<AttemptRow>): (r: seq<string>)
    ensures |r| == |attempts|
    ensures forall i :: 0 <= i < |r| ==> r[i] == CatName(attempts[i])
  {
    seq(|attempts|, i requires 0 <= i < |attempts| => CatName(attempts[i]))
  }

  lemma CatNamesStep(attempts: seq<AttemptRow>, n: nat)
    requires n < |attempts|
    ensures CatNames(attempts[..n + 1]) == CatNames(attempts[..n]) + [CatName(attempts[n])]
  {
  }

  /** A name occurs among the attempts' category names exactly when one of them is filed under it. */
  lemma CatNamesMembers(attempts: seq<AttemptRow>, k: string)
    ensures k in CatNames(attempts) <==> k in CategoryNames(attempts)
    ensures k in Distinct(CatNames(attempts)) <==> k in CategoryNames(attempts)
  {
    if k in CategoryNames(attempts) {
      var j :| 0 <= j < |attempts| && CatName(attempts[j]) == k;
      assert CatNames(attempts)[j] == k;
    }
  }

  /** The sum of the scores of the attempts filed under category k. */
  function ScoreOfCategory(attempts: seq<AttemptRow>, k: string): int
  {
    if |attempts| == 0 then 0
    else
      var a := attempts[|attempts| - 1];
      ScoreOfCategory(attempts[..|attempts| - 1], k) + (if CatName(a) == k then ScoreValue(a.totalScore) else 0)
  }

  function CategoryNames(attempts: seq<AttemptRow>): set<string>
  {
    set i | 0 <= i < |attempts| :: CatName(attempts[i])
  }

  /** The per-category sums the routes build, as a reference: one entry per name. */
  function CategoryTotals(attempts: seq<AttemptRow>): map<string, int>
  {
    map k | k in CategoryNames(attempts) :: ScoreOfCategory(attempts, k)
  }

  /** A category no attempt is filed under sums to nothing. */
  lemma {:induction false} ScoreOfAbsentCategory(attempts: seq<AttemptRow>, k: string)
    requires k !in CategoryNames(attempts)
    ensures ScoreOfCategory(attempts, k) == 0
    decreases |attempts|
  {
    if |attempts| > 0 {
      var init := attempts[..|attempts| - 1];
      assert CategoryNames(init) <= CategoryNames(attempts) by {
        forall x | x in CategoryNames(init)
          ensures x in CategoryNames(attempts)
        {
          var i :| 0 <= i < |init| && CatName(init[i]) == x;
          assert attempts[i] == init[i];
        }
      }
      ScoreOfAbsentCategory(init, k);
      assert CatName(attempts[|attempts| - 1]) in CategoryNames(attempts);
    }
  }

  lemma CategoryNamesStep(attempts: seq<AttemptRow>, n: nat)
    requires n < |attempts|
    ensures CategoryNames(attempts[..n + 1]) == CategoryNames(attempts[..n]) + {CatName(attempts[n])}
  {
    var p, q := attempts[..n], attempts[..n + 1];
    forall x | x in CategoryNames(q)
      ensures x in CategoryNames(p) + {CatName(attempts[n])}
    {
      var i :| 0 <= i < |q| && CatName(q[i]) == x;
      if i < n {
        assert p[i] == q[i];
      }
    }
    forall x | x in CategoryNames(p)
      ensures x in CategoryNames(q)
    {
      var i :| 0 <= i < |p| && CatName(p[i]) == x;
      assert q[i] == p[i];
    }
    assert q[n] == attempts[n];
  }

  /** One more attempt adds its score to its own category and to no other. */
  lemma CategoryTotalsStep(attempts: seq<AttemptRow>, n: nat)
    requires n < |attempts|
    ensures var m := CategoryTotals(attempts[..n]);
      var k := CatName(attempts[n]);
      CategoryTotals(attempts[..n + 1]) == m[k := (if k in m then m[k] else 0) + ScoreValue(attempts[n].totalScore)]
  {
    var p, q := attempts[..n], attempts[..n + 1];
    var m := CategoryTotals(p);
    var k := CatName(attempts[n]);
    var v := ScoreValue(attempts[n].totalScore);
    var want := m[k := (if k in m then m[k] else 0) + v];
    var got := CategoryTotals(q);
    CategoryNamesStep(attempts, n);
    if k !in m {
      ScoreOfAbsentCategory(p, k);
    }
    forall x | x in got
      ensures x in want && got[x] == want[x]
    {
      ScoreOfCategoryStep(attempts, n, x);
    }
    SameMap(got, want);
  }

  lemma ScoreOfCategoryStep(attempts: seq<AttemptRow>, n: nat, x: string)
    requires n < |attempts|
    ensures ScoreOfCategory(attempts[..n + 1], x)
      == ScoreOfCategory(attempts[..n], x) + (if CatName(attempts[n]) == x then ScoreValue(attempts[n].totalScore) else 0)
  {
    assert attempts[..n + 1][..n] == attempts[..n];
  }

  lemma SameMap(a: map<string, int>, b: map<string, int>)
    requires a.Keys == b.Keys
    requires forall x :: x in a ==> x in b && a[x] == b[x]
    ensures a == b
  {
  }

  /**
   * The forEach that fills categoryScores: each attempt's score (null as 0)
   * is added to the entry of its category name, created at 0 on first use.
   */
  method SumByCategory(attempts: seq<AttemptRow>) returns (totals: map<string, int>)
    ensures totals == CategoryTotals(attempts)
    ensures totals.Keys == CategoryNames(attempts)
    ensures forall k :: k in totals ==> totals[k] == ScoreOfCategory(attempts, k)
  {
    totals := map[];
    var i := 0;
    assert attempts[..0] == [];
    while i < |attempts|
      invariant 0 <= i <= |attempts|
      invariant totals == CategoryTotals(attempts[..i])
    {
      var k := CatName(attempts[i]);
      CategoryTotalsStep(attempts, i);
      totals := totals[k := (if k in totals then totals[k] else 0) + ScoreValue(attempts[i].totalScore)];
      i := i + 1;
    }
    assert attempts[..i] == attempts;
  }

  /**
   * The latest completion time, as the reduce starting from new Date(0)
   * computes it: never before the epoch, never before any attempt's
   * completion, and the completion time of one of them unless it is the epoch.
   */
  function LatestDate(attempts: seq<AttemptRow>): (r: Time)
    ensures r >= 0
    ensures forall i :: 0 <= i < |attempts| ==> CompletedTime(attempts[i]) <= r
    ensures r == 0 || exists i :: 0 <= i < |attempts| && CompletedTime(attempts[i]) == r
  {
    if |attempts| == 0 then 0
    else
      var init := attempts[..|attempts| - 1];
      var latest := LatestDate(init);
      var date := CompletedTime(attempts[|attempts| - 1]);
      assert forall i :: 0 <= i < |init| ==> attempts[i] == init[i];
      if date > latest then date else latest
  }
}
