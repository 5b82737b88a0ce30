/**
 * The tutor's dashboard (GET app/api/tutor/dashboard/summary): the
 * greeting name, this month's active students and scored records, the
 * most common band among the students' best averages, and the average
 * score per category over the completed, scored attempts.
 *
 * The calendar month is given by its two bounds in milliseconds; the rows
 * are what the route's queries load.
 */
module TutorDashboard {
  import opened Common
  import opened Scoring
  import opened Db
  import opened Reports
  import opened Ordering

  datatype UserRow = UserRow(role: Role, lastLogin: Option<Time>)

  /** One entry of perCategoryAgg. */
  datatype Agg = Agg(sum: int, count: nat)

  datatype ClassCategory = ClassCategory(name: string, avgScore: real)

  datatype ClassPerformance = ClassPerformance(categories: seq<ClassCategory>, avgScore: real, totalStudents: nat)

  datatype TutorSummary = TutorSummary(
    nickname: string,
    activeStudentsThisMonth: Option<nat>,
    testAttemptsThisMonth: Option<nat>,
    mostCommonStudentLevel: string,
    classPerformance: ClassPerformance)

  datatype TutorReply =
    | Summary(data: TutorSummary)
    | Unauthorized
    | Forbidden

  /** The text before the first white space (the first element of split(/\s+/)). */
  function FirstWord(s: string): (r: string)
    ensures |r| <= |s| && r == s[..|r|]
    ensures forall i :: 0 <= i < |r| ==> !IsJsSpace(r[i])
    ensures |r| < |s| ==> IsJsSpace(s[|r|])
  {
    if |s| == 0 || IsJsSpace(s[0]) then "" else [s[0]] + FirstWord(s[1..])
  }

  /** (fullName || 'Tutor').trim().split(/\s+/)[0] || 'Tutor' */
  function Nickname(fullName: Option<string>): (r: string)
    ensures r != ""
    ensures forall i :: 0 <= i < |r| ==> !IsJsSpace(r[i])
  {
    var name := match fullName case Some(n) => if n != "" then n else "Tutor" case None => "Tutor";
    var w := FirstWord(Trim(name));
    if w != "" then w else TutorIsOneWord(); "Tutor"
  }

  /** The fallback nickname has no white space in it. */
  lemma TutorIsOneWord()
    ensures forall i :: 0 <= i < |"Tutor"| ==> !IsJsSpace("Tutor"[i])
  {
    assert "Tutor" == ['T', 'u', 't', 'o', 'r'];
  }

  /** A name with no white space is its own nickname. */
  lemma NicknameOfOneWord(name: string)
    requires name != "" && forall i :: 0 <= i < |name| ==> !IsJsSpace(name[i])
    ensures Nickname(Some(name)) == name
  {
    TrimOfTrimmed(name);
    FirstWordOfWord(name);
  }

  lemma {:induction false} FirstWordOfWord(s: string)
    requires forall i :: 0 <= i < |s| ==> !IsJsSpace(s[i])
    ensures FirstWord(s) == s
    decreases |s|
  {
    if |s| > 0 {
      FirstWordOfWord(s[1..]);
    }
  }

  /** The first word ends at the first white space: "Ana Maria" greets Ana. */
  lemma {:induction false} FirstWordStopsAtSpace(w: string, rest: string)
    requires forall i :: 0 <= i < |w| ==> !IsJsSpace(w[i])
    requires |rest| > 0 && IsJsSpace(rest[0])
    ensures FirstWord(w + rest) == w
    decreases |w|
  {
    if |w| == 0 {
      assert w + rest == rest;
    } else {
      assert (w + rest)[1..] == w[1..] + rest;
      FirstWordStopsAtSpace(w[1..], rest);
    }
  }

  /** count > 0 ? count : null */
  function NullIfZero(n: nat): (r: Option<nat>)
    ensures r.None? <==> n == 0
    ensures r.Some? ==> r.value == n
  {
    if n > 0 then Some(n) else None
  }

  /** Students whose last login falls on or after the start of the month. */
  function ActiveStudents(users: seq<UserRow>, monthStart: Time): nat
  {
    if |users| == 0 then 0
    else
      var u := users[|users| - 1];
      ActiveStudents(users[..|users| - 1], monthStart)
        + (if u.role == Student && u.lastLogin.Some? && u.lastLogin.value >= monthStart then 1 else 0)
  }

  /** Records created within [monthStart, nextMonthStart) that carry an average. */
  function RecordsThisMonth(records: seq<RecordRow>, monthStart: Time, nextMonthStart: Time): nat
  {
    if |records| == 0 then 0
    else
      var r := records[|records| - 1];
      RecordsThisMonth(records[..|records| - 1], monthStart, nextMonthStart)
        + (if monthStart <= r.createdAt < nextMonthStart && r.averageScore.Some? then 1 else 0)
  }

  function StudentCount(users: seq<UserRow>): nat
  {
    if |users| == 0 then 0
    else StudentCount(users[..|users| - 1]) + (if users[|users| - 1].role == Student then 1 else 0)
  }

  /** The bands counted: the rounded best average of each student whose best is positive. */
  function Bands(bests: seq<Option<real>>): (r: seq<int>)
    ensures |r| <= |bests|
  {
    if |bests| == 0 then []
    else
      var init := Bands(bests[..|bests| - 1]);
      match bests[|bests| - 1]
        case Some(avg) => if avg > 0.0 then init + [MathRound(avg)] else init
        case None => init
  }

  function Count(xs: seq<int>, v: int): nat
  {
    multiset(xs)[v]
  }

  ghost predicate FreqTable(bands: seq<int>, keys: seq<int>, freq: map<int, nat>)
  {
    && keys == Distinct(bands)
    && (forall x :: x in freq <==> x in bands)
    && forall k :: k in freq ==> freq[k] == Count(bands, k)
  }

  lemma BandsStep(bests: seq<Option<real>>, n: nat)
    requires n < |bests|
    ensures Bands(bests[..n + 1]) ==
      match bests[n]
        case Some(avg) => if avg > 0.0 then Bands(bests[..n]) + [MathRound(avg)] else Bands(bests[..n])
        case None => Bands(bests[..n])
  {
    assert bests[..n + 1][..n] == bests[..n];
  }

  lemma CountSnoc(bands: seq<int>, b: int)
    ensures forall x :: Count(bands + [b], x) == Count(bands, x) + (if x == b then 1 else 0)
    ensures forall x :: x in bands + [b] <==> x in bands || x == b
  {
    assert multiset(bands + [b]) == multiset(bands) + multiset{b};
  }

  /** A band seen for the first time is appended to the keys with frequency 1. */
  lemma FreqStepNew(bands: seq<int>, keys: seq<int>, freq: map<int, nat>, b: int)
    requires FreqTable(bands, keys, freq) && b !in freq
    ensures FreqTable(bands + [b], keys + [b], freq[b := 1])
  {
    var nb, nf := bands + [b], freq[b := 1];
    CountSnoc(bands, b);
    assert b !in bands;
    DistinctSnoc(bands, b);
    forall x
      ensures x in nf <==> x in nb
    {
    }
    forall k | k in nf
      ensures nf[k] == Count(nb, k)
    {
      if k == b {
        assert Count(bands, b) == 0;
      }
    }
  }

  /** A band seen before has its frequency raised by one. */
  lemma FreqStepSeen(bands: seq<int>, keys: seq<int>, freq: map<int, nat>, b: int)
    requires FreqTable(bands, keys, freq) && b in freq
    ensures FreqTable(bands + [b], keys, freq[b := freq[b] + 1])
  {
    var nb, nf := bands + [b], freq[b := freq[b] + 1];
    CountSnoc(bands, b);
    assert b in bands;
    DistinctSnoc(bands, b);
    forall x
      ensures x in nf <==> x in nb
    {
    }
    forall k | k in nf
      ensures nf[k] == Count(nb, k)
    {
    }
  }

  /**
   * The loop filling freq: keys holds the Map's keys in insertion order
   * and freq how often each rounded band occurs.
   */
  method BandFrequencies(bests: seq<Option<real>>) returns (keys: seq<int>, freq: map<int, nat>)
    ensures FreqTable(Bands(bests), keys, freq)
  {
    keys, freq := [], map[];
    var i := 0;
    while i < |bests|
      invariant 0 <= i <= |bests|
      invariant FreqTable(Bands(bests[..i]), keys, freq)
    {
      BandsStep(bests, i);
      var avg := match bests[i] case Some(v) => v case None => 0.0;
      if avg > 0.0 {
        var key := MathRound(avg);
        if key in freq {
          FreqStepSeen(Bands(bests[..i]), keys, freq, key);
          freq := freq[key := freq[key] + 1];
        } else {
          FreqStepNew(Bands(bests[..i]), keys, freq, key);
          keys := keys + [key];
          freq := freq[key := 1];
        }
      }
      i := i + 1;
    }
    assert bests[..i] == bests;
  }

  /** m occurs most often in bands, and no more frequent-or-equal band is higher. */
  predicate IsMode(bands: seq<int>, m: int)
  {
    m in bands && forall v :: v in bands ==> Count(bands, v) < Count(bands, m) || (Count(bands, v) == Count(bands, m) && v <= m)
  }

  /** There is only one mode. */
  lemma ModeUnique(bands: seq<int>, m1: int, m2: int)
    requires IsMode(bands, m1) && IsMode(bands, m2)
    ensures m1 == m2
  {
  }

  /** The mode with ties going to the highest band, over the keys in insertion order. */
  function ModeOfKeys(keys: seq<int>, freq: map<int, nat>): (m: Option<int>)
    requires forall k :: k in keys ==> k in freq
    ensures m.None? <==> |keys| == 0
    ensures m.Some? ==> m.value in keys && m.value in freq
    ensures m.Some? ==> forall k :: k in keys ==>
      freq[k] < freq[m.value] || (freq[k] == freq[m.value] && k <= m.value)
  {
    if |keys| == 0 then None
    else
      var n := |keys| - 1;
      var prev := ModeOfKeys(keys[..n], freq);
      assert forall k :: k in keys <==> k in keys[..n] || k == keys[n];
      if prev.None? || freq[keys[n]] > freq[prev.value] || (freq[keys[n]] == freq[prev.value] && keys[n] > prev.value)
      then Some(keys[n]) else prev
  }

  /**
   * The mode loop: modeCount starts at -1, a higher count takes over,
   * an equal count takes over when its band is higher.
   */
  method PickMode(keys: seq<int>, freq: map<int, nat>) returns (mode: Option<int>)
    requires forall k :: k in keys ==> k in freq
    ensures mode == ModeOfKeys(keys, freq)
  {
    mode := None;
    var modeCount: int := -1;
    var i := 0;
    while i < |keys|
      invariant 0 <= i <= |keys|
      invariant mode == ModeOfKeys(keys[..i], freq)
      invariant mode.None? ==> modeCount == -1
      invariant mode.Some? ==> mode.value in freq && modeCount == freq[mode.value]
    {
      var key := keys[i];
      var count := freq[key];
      assert keys[..i + 1][..i] == keys[..i];
      if count > modeCount {
        mode, modeCount := Some(key), count;
      } else if count == modeCount && mode.Some? {
        if key > mode.value {
          mode := Some(key);
        }
      }
      i := i + 1;
    }
    assert keys[..i] == keys;
  }

  /** The mode of the bands: None when no student has a positive best average. */
  function MostCommonBand(bests: seq<Option<real>>): (m: Option<int>)
    ensures m.None? <==> |Bands(bests)| == 0
    ensures m.Some? ==> IsMode(Bands(bests), m.value)
  {
    var bands := Bands(bests);
    var keys := Distinct(bands);
    var freq := map k | k in bands :: Count(bands, k);
    var m := ModeOfKeys(keys, freq);
    ModeOfTable(bands, keys, freq);
    m
  }

  /** The mode over the frequency table is the mode of the bands. */
  lemma ModeOfTable(bands: seq<int>, keys: seq<int>, freq: map<int, nat>)
    requires FreqTable(bands, keys, freq)
    ensures forall k :: k in keys ==> k in freq
    ensures ModeOfKeys(keys, freq).None? <==> |bands| == 0
    ensures ModeOfKeys(keys, freq).Some? ==> IsMode(bands, ModeOfKeys(keys, freq).value)
  {
    assert forall k :: k in keys <==> k in bands;
    if |bands| > 0 {
      assert bands[0] in keys;
    }
  }

  /** The band as the route returns it: its decimal text, or 'N/A'. */
  function BandText(bests: seq<Option<real>>): string
  {
    match MostCommonBand(bests)
      case Some(m) => IntString(m)
      case None => "N/A"
  }

  /**
   * computeMostCommonBandScoreFromBestAverages: the frequency loop, then
   * the mode loop; 'N/A' when no student has a positive best average.
   */
  method MostCommonBandScore(bests: seq<Option<real>>) returns (r: string)
    ensures r == BandText(bests)
    ensures r == "N/A" <==> |Bands(bests)| == 0
  {
    if |bests| == 0 {
      return "N/A";
    }
    var keys, freq := BandFrequencies(bests);
    ModeOfTable(Bands(bests), keys, freq);
    var mode := PickMode(keys, freq);
    if mode.Some? {
      ModeUnique(Bands(bests), mode.value, MostCommonBand(bests).value);
      r := IntString(mode.value);
    } else {
      r := "N/A";
    }
    NotApplicableIsNoNumber(MostCommonBand(bests));
  }

  /** 'N/A' is never the text of a number. */
  lemma NotApplicableIsNoNumber(m: Option<int>)
    ensures m.Some? ==> IntString(m.value) != "N/A"
  {
    if m.Some? {
      var t := IntString(m.value);
      if m.value >= 0 {
        assert IsDigit(t[0]);
      } else {
        assert t[0] == '-';
      }
    }
  }

  /** Attempts the class performance counts: completed, named, with a positive score. */
  predicate Scored(a: AttemptRow)
  {
    a.completedAt.Some? && a.categoryName.Some? && a.totalScore.Some? && a.totalScore.value > 0
  }

  /** The category names of the counted attempts, in order, with repeats. */
  function ClassNames(attempts: seq<AttemptRow>): (r: seq<string>)
    ensures |r| <= |attempts|
  {
    if |attempts| == 0 then []
    else
      var n := |attempts| - 1;
      var init := ClassNames(attempts[..n]);
      if Scored(attempts[n]) then init + [attempts[n].categoryName.value] else init
  }

  /** A name is listed exactly when some counted attempt carries it. */
  lemma {:induction false} ClassNamesMembers(attempts: seq<AttemptRow>, k: string)
    ensures k in ClassNames(attempts) <==> exists i :: 0 <= i < |attempts| && Scored(attempts[i]) && attempts[i].categoryName.value == k
    decreases |attempts|
  {
    if |attempts| > 0 {
      var n := |attempts| - 1;
      ClassNamesMembers(attempts[..n], k);
      assert forall i :: 0 <= i < n ==> attempts[..n][i] == attempts[i];
    }
  }

  /** The sum and the number of the counted scores filed under name k. */
  function ClassSum(attempts: seq<AttemptRow>, k: string): int
  {
    if |attempts| == 0 then 0
    else
      var a := attempts[|attempts| - 1];
      ClassSum(attempts[..|attempts| - 1], k) + (if Scored(a) && a.categoryName.value == k then a.totalScore.value else 0)
  }

  function ClassCount(attempts: seq<AttemptRow>, k: string): nat
  {
    if |attempts| == 0 then 0
    else
      var a := attempts[|attempts| - 1];
      ClassCount(attempts[..|attempts| - 1], k) + (if Scored(a) && a.categoryName.value == k then 1 else 0)
  }

  /** A listed name has at least one counted score. */
  lemma {:induction false} ClassCountPositive(attempts: seq<AttemptRow>, k: string)
    ensures ClassCount(attempts, k) > 0 <==> k in ClassNames(attempts)
    decreases |attempts|
  {
    if |attempts| > 0 {
      ClassCountPositive(attempts[..|attempts| - 1], k);
    }
  }

  /** A category's counted scores are all at least 1, so their mean is too. */
  lemma {:induction false} ClassSumAtLeastCount(attempts: seq<AttemptRow>, k: string)
    ensures ClassSum(attempts, k) >= ClassCount(attempts, k)
    decreases |attempts|
  {
    if |attempts| > 0 {
      ClassSumAtLeastCount(attempts[..|attempts| - 1], k);
    }
  }

  /**
   * The two loop variables after a run of attempts, one attempt at a time:
   * the category names in first-seen order, and per name the sum of the
   * scores and their number.
   */
  function AggFold(attempts: seq<AttemptRow>): (r: (seq<string>, map<string, Agg>))
    ensures |r.0| <= |attempts|
  {
    if |attempts| == 0 then ([], map[])
    else
      var n := |attempts| - 1;
      var prev := AggFold(attempts[..n]);
      var a := attempts[n];
      if !Scored(a) then prev
      else
        var name := a.categoryName.value;
        if name !in prev.1 then (prev.0 + [name], prev.1[name := Agg(a.totalScore.value, 1)])
        else (prev.0, prev.1[name := Agg(prev.1[name].sum + a.totalScore.value, prev.1[name].count + 1)])
  }

  /** The table has an entry exactly for the names of counted attempts. */
  lemma {:induction false} AggFoldKeys(attempts: seq<AttemptRow>, k: string)
    ensures k in AggFold(attempts).1 <==> k in ClassNames(attempts)
    decreases |attempts|
  {
    if |attempts| > 0 {
      AggFoldKeys(attempts[..|attempts| - 1], k);
    }
  }

  /** Each entry holds the sum and the number of its category's counted scores. */
  lemma {:induction false} AggFoldValue(attempts: seq<AttemptRow>, k: string)
    requires k in AggFold(attempts).1
    ensures AggFold(attempts).1[k] == Agg(ClassSum(attempts, k), ClassCount(attempts, k))
    decreases |attempts|
  {
    var n := |attempts| - 1;
    var pre := attempts[..n];
    var a := attempts[n];
    var prev := AggFold(pre);
    if k in prev.1 {
      AggFoldValue(pre, k);
    } else {
      AggFoldKeys(pre, k);
      ClassSumOfAbsent(pre, k);
      ClassCountPositive(pre, k);
      assert Scored(a) && a.categoryName.value == k;
    }
  }

  /** The names are the distinct counted category names, in first-seen order. */
  lemma {:induction false} AggFoldNames(attempts: seq<AttemptRow>)
    ensures AggFold(attempts).0 == Distinct(ClassNames(attempts))
    decreases |attempts|
  {
    if |attempts| > 0 {
      var n := |attempts| - 1;
      var pre := attempts[..n];
      var a := attempts[n];
      AggFoldNames(pre);
      if Scored(a) {
        AggFoldKeys(pre, a.categoryName.value);
        DistinctSnoc(ClassNames(pre), a.categoryName.value);
      }
    }
  }

  /** The loop's two variables after the attempts seen: names in first-seen order, and the table. */
  ghost predicate AggTable(attempts: seq<AttemptRow>, names: seq<string>, agg: map<string, Agg>)
  {
    && names == Distinct(ClassNames(attempts))
    && (forall k :: k in agg <==> k in ClassNames(attempts))
    && forall k :: k in agg ==> agg[k] == Agg(ClassSum(attempts, k), ClassCount(attempts, k))
  }

  /** The fold builds exactly that table. */
  lemma AggFoldMeaning(attempts: seq<AttemptRow>)
    ensures AggTable(attempts, AggFold(attempts).0, AggFold(attempts).1)
  {
    var agg := AggFold(attempts).1;
    AggFoldNames(attempts);
    forall k
      ensures k in agg <==> k in ClassNames(attempts)
    {
      AggFoldKeys(attempts, k);
    }
    forall k | k in agg
      ensures agg[k] == Agg(ClassSum(attempts, k), ClassCount(attempts, k))
    {
      AggFoldValue(attempts, k);
    }
  }

  /** A name no counted attempt carries has a sum of zero. */
  lemma {:induction false} ClassSumOfAbsent(attempts: seq<AttemptRow>, k: string)
    requires k !in ClassNames(attempts)
    ensures ClassSum(attempts, k) == 0
    decreases |attempts|
  {
    if |attempts| > 0 {
      ClassSumOfAbsent(attempts[..|attempts| - 1], k);
    }
  }

  /** The loop filling perCategoryAgg: per category name, the sum of the scores and their number. */
  method AggregateByCategory(attempts: seq<AttemptRow>) returns (names: seq<string>, agg: map<string, Agg>)
    ensures (names, agg) == AggFold(attempts)
    ensures AggTable(attempts, names, agg)
  {
    names, agg := [], map[];
    var i := 0;
    while i < |attempts|
      invariant 0 <= i <= |attempts|
      invariant (names, agg) == AggFold(attempts[..i])
    {
      var a := attempts[i];
      assert attempts[..i + 1][..i] == attempts[..i];
      if Scored(a) {
        var catName := a.categoryName.value;
        if catName !in agg {
          names := names + [catName];
          agg := agg[catName := Agg(a.totalScore.value, 1)];
        } else {
          agg := agg[catName := Agg(agg[catName].sum + a.totalScore.value, agg[catName].count + 1)];
        }
      }
      i := i + 1;
    }
    assert attempts[..i] == attempts;
    AggFoldMeaning(attempts);
  }

  /** Math.round((sum / count) * 100) / 100 for one category. */
  function CategoryAverage(attempts: seq<AttemptRow>, k: string): (r: real)
    requires k in ClassNames(attempts)
    ensures r >= 1.0
  {
    ClassSumAtLeastCount(attempts, k);
    ClassCountPositive(attempts, k);
    var mean := ClassSum(attempts, k) as real / ClassCount(attempts, k) as real;
    assert mean >= 1.0 by {
      MeanAtLeastOne(ClassSum(attempts, k), ClassCount(attempts, k));
    }
    RoundCentsAtLeastOne(mean);
    RoundCents(mean)
  }

  lemma MeanAtLeastOne(sum: int, count: nat)
    requires count > 0 && sum >= count
    ensures sum as real / count as real >= 1.0
  {
  }

  /** The distinct counted category names in code-unit order (the localeCompare sort). */
  function SortedClassNames(attempts: seq<AttemptRow>): (names: seq<string>)
    ensures StrictlySorted(names)
    ensures forall k :: k in names <==> k in ClassNames(attempts)
  {
    var d := Distinct(ClassNames(attempts));
    var names := SortNames(d);
    forall k
      ensures k in names <==> k in ClassNames(attempts)
    {
      assert k in names <==> k in multiset(names);
      assert k in d <==> k in multiset(d);
    }
    names
  }

  predicate ClassNameOrdered(r: seq<ClassCategory>)
  {
    forall i, j :: 0 <= i < j < |r| ==> StrLt(r[i].name, r[j].name)
  }

  /** Each entry is a counted category with its rounded mean score. */
  predicate ClassAverages(attempts: seq<AttemptRow>, r: seq<ClassCategory>)
  {
    forall i :: 0 <= i < |r| ==> (r[i].name in ClassNames(attempts) && r[i].avgScore == CategoryAverage(attempts, r[i].name))
  }

  predicate CoversClassNames(attempts: seq<AttemptRow>, r: seq<ClassCategory>)
  {
    forall k :: k in ClassNames(attempts) ==> exists i :: 0 <= i < |r| && r[i].name == k
  }

  /** The categories array: one entry per counted category name, in name order. */
  function ClassCategories(attempts: seq<AttemptRow>): (r: seq<ClassCategory>)
    ensures ClassNameOrdered(r)
    ensures ClassAverages(attempts, r)
    ensures CoversClassNames(attempts, r)
  {
    var names := SortedClassNames(attempts);
    var r := seq(|names|, i requires 0 <= i < |names| => ClassCategory(names[i], CategoryAverage(attempts, names[i])));
    forall k | k in ClassNames(attempts)
      ensures exists i :: 0 <= i < |r| && r[i].name == k
    {
      var i :| 0 <= i < |names| && names[i] == k;
      assert r[i].name == k;
    }
    r
  }

  function AvgSum(cs: seq<ClassCategory>): real
  {
    if |cs| == 0 then 0.0 else AvgSum(cs[..|cs| - 1]) + cs[|cs| - 1].avgScore
  }

  /** Every category average is at least 1, so their sum is at least their number. */
  lemma {:induction false} AvgSumAtLeast(attempts: seq<AttemptRow>, cs: seq<ClassCategory>)
    requires ClassAverages(attempts, cs)
    ensures AvgSum(cs) >= |cs| as real
    decreases |cs|
  {
    if |cs| > 0 {
      var n := |cs| - 1;
      assert ClassAverages(attempts, cs[..n]) by {
        forall i | 0 <= i < n
          ensures cs[..n][i].name in ClassNames(attempts) && cs[..n][i].avgScore == CategoryAverage(attempts, cs[..n][i].name)
        {
          assert cs[..n][i] == cs[i];
        }
      }
      AvgSumAtLeast(attempts, cs[..n]);
      assert cs[n].avgScore >= 1.0;
    }
  }

  lemma MeanAtLeastOneReal(sum: real, count: nat)
    requires count > 0 && sum >= count as real
    ensures sum / count as real >= 1.0
  {
  }

  /**
   * computeClassPerformance: the categories by name with their average
   * scores and the mean of those averages; [] and 0 when no attempt
   * counts; an empty result when a query fails.
   */
  function ComputeClassPerformance(attempts: seq<AttemptRow>, users: seq<UserRow>, failed: bool): (r: ClassPerformance)
    ensures failed ==> r == ClassPerformance([], 0.0, 0)
    ensures !failed ==> r.totalStudents == StudentCount(users)
    ensures !failed && |ClassNames(attempts)| == 0 ==> r.categories == [] && r.avgScore == 0.0
    ensures !failed && |ClassNames(attempts)| > 0 ==>
      && ClassNameOrdered(r.categories)
      && ClassAverages(attempts, r.categories)
      && CoversClassNames(attempts, r.categories)
      && |r.categories| > 0
      && r.avgScore >= 1.0
  {
    if failed then ClassPerformance([], 0.0, 0)
    else if |ClassNames(attempts)| == 0 then ClassPerformance([], 0.0, StudentCount(users))
    else
      var cs := ClassCategories(attempts);
      assert |cs| > 0 by {
        var k := ClassNames(attempts)[0];
        assert k in ClassNames(attempts);
      }
      var overall := if |cs| > 0 then AvgSum(cs) / |cs| as real else 0.0;
      assert overall >= 1.0 by {
        AvgSumAtLeast(attempts, cs);
        MeanAtLeastOneReal(AvgSum(cs), |cs|);
      }
      RoundCentsAtLeastOne(overall);
      ClassPerformance(cs, RoundCents(overall), StudentCount(users))
  }

  /** The response of GET /api/tutor/dashboard/summary for the user the token names. */
  function TutorDashboardSummary(user: Option<(Role, Option<string>)>, users: seq<UserRow>, records: seq<RecordRow>,
                                 bests: seq<Option<real>>, attempts: seq<AttemptRow>,
                                 monthStart: Time, nextMonthStart: Time, classFailed: bool): (reply: TutorReply)
    ensures reply.Unauthorized? <==> user.None?
    ensures reply.Forbidden? <==> user.Some? && !IsStaff(user.value.0)
    ensures reply.Summary? ==>
      && reply.data.nickname == Nickname(user.value.1)
      && (reply.data.activeStudentsThisMonth.None? <==> ActiveStudents(users, monthStart) == 0)
      && (reply.data.testAttemptsThisMonth.None? <==> RecordsThisMonth(records, monthStart, nextMonthStart) == 0)
  {
    if user.None? then Unauthorized
    else if !IsStaff(user.value.0) then Forbidden
    else
      Summary(TutorSummary(
        Nickname(user.value.1),
        NullIfZero(ActiveStudents(users, monthStart)),
        NullIfZero(RecordsThisMonth(records, monthStart, nextMonthStart)),
        BandText(bests),
        ComputeClassPerformance(attempts, users, classFailed)))
  }
}
