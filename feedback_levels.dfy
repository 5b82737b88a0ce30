/**
 * The score bands tutors attach feedback to (app/api/tutor/feedback/levels
 * and app/api/tutor/feedback/templates): the validation of a PUT of the
 * whole band list or template list, and the transactions that replace the
 * stored set with the incoming one.
 *
 * The store holds the BandScore rows by id together with the unique index
 * on their band name, and the Feedback rows by id.
 */
module FeedbackLevels {
  import opened Common
  import opened JsNumber

  /**
   * A score field of the request as the route reads it: Undefined when the
   * property is absent, otherwise the parseInt of the value sent (None for NaN).
   */
  datatype Score = Undefined | Given(parsed: Option<int>)

  /** The reading of a score sent as text. */
  function ReadScore(raw: Option<string>): Score
  {
    if raw.Some? then Given(ParseInt(raw.value)) else Undefined
  }

  /** One element of body.levels: the level name as sent, and both scores. */
  datatype LevelInput = LevelInput(level: Option<string>, minScore: Score, maxScore: Score)

  datatype LevelsError =
    | NotAnArray
    | EmptyName
    | MissingFields
    | MinNotBelowMax(level: string)
    | DuplicateNames(names: seq<string>)
    | BadRange(level: string, from: int, previousMax: int)

  datatype Band = Band(band: string, minScore: int, maxScore: int, order: nat)

  datatype FeedbackRow = FeedbackRow(text: string, bandScoreId: Option<nat>)

  /** A band as the PUT lists it back: its id and its values. */
  datatype SavedLevel = SavedLevel(id: nat, band: Band)

  datatype TemplatesReply =
    | TemplatesSaved
    | TemplatesUnauthorized
    | TemplatesForbidden
    | TemplatesRejected(error: TemplatesError)

  datatype LevelsReply =
    | LevelsSaved(levels: seq<SavedLevel>)
    | LevelsUnauthorized
    | LevelsForbidden
    | LevelsRejected(error: LevelsError)
    | LevelsFailed

  /** The text of level.level; absent reads as the empty string. */
  function NameOf(l: LevelInput): string
  {
    if l.level.Some? then l.level.value else ""
  }

  /** parseInt(level.minScore), None for NaN (parseInt of undefined is NaN too). */
  function MinOf(l: LevelInput): Option<int>
  {
    if l.minScore.Given? then l.minScore.parsed else None
  }

  function MaxOf(l: LevelInput): Option<int>
  {
    if l.maxScore.Given? then l.maxScore.parsed else None
  }

  /** a < b between two parsed numbers; any comparison with NaN is false. */
  predicate Below(a: Option<int>, b: Option<int>)
  {
    a.Some? && b.Some? && a.value < b.value
  }

  /** The checks of the for…of loop on one level, in their order. */
  function LevelError(l: LevelInput): (r: Option<LevelsError>)
    ensures r.None? <==>
      && Trim(NameOf(l)) != ""
      && l.minScore.Given? && l.maxScore.Given?
      && !(MinOf(l).Some? && MaxOf(l).Some? && MinOf(l).value >= MaxOf(l).value)
  {
    if l.level.None? || l.level.value == "" || Trim(l.level.value) == "" then Some(EmptyName)
    else if l.minScore.Undefined? || l.maxScore.Undefined? then Some(MissingFields)
    else if MinOf(l).Some? && MaxOf(l).Some? && MinOf(l).value >= MaxOf(l).value then Some(MinNotBelowMax(l.level.value))
    else None
  }

  /** The first level that fails its checks decides the response. */
  function FirstLevelError(levels: seq<LevelInput>): (r: Option<LevelsError>)
    ensures r.None? <==> forall i :: 0 <= i < |levels| ==> LevelError(levels[i]).None?
    ensures r.Some? ==> exists i :: 0 <= i < |levels| && r == LevelError(levels[i])
  {
    if |levels| == 0 then None
    else if LevelError(levels[0]).Some? then LevelError(levels[0])
    else
      var rest := FirstLevelError(levels[1..]);
      assert rest.None? ==> forall i :: 0 <= i < |levels| ==> LevelError(levels[i]).None? by {
        if rest.None? {
          forall i | 0 < i < |levels|
            ensures LevelError(levels[i]).None?
          {
            assert levels[i] == levels[1..][i - 1];
          }
        }
      }
      assert rest.Some? ==> exists i :: 0 <= i < |levels| && rest == LevelError(levels[i]) by {
        if rest.Some? {
          var j :| 0 <= j < |levels| - 1 && rest == LevelError(levels[1..][j]);
          assert levels[1..][j] == levels[j + 1];
        }
      }
      rest
  }

  /** The validation loop: returns on the first level that fails. */
  method CheckEachLevel(levels: seq<LevelInput>) returns (err: Option<LevelsError>)
    ensures err == FirstLevelError(levels)
  {
    var i := 0;
    while i < |levels|
      invariant 0 <= i <= |levels|
      invariant FirstLevelError(levels) == FirstLevelError(levels[i..])
    {
      assert levels[i..][1..] == levels[i + 1..];
      var e := LevelError(levels[i]);
      if e.Some? {
        return e;
      }
      i := i + 1;
    }
    return None;
  }

  /** level.trim().toUpperCase(): the key names are compared by. */
  function NameKey(l: LevelInput): string
  {
    Upper(Trim(NameOf(l)))
  }

  function NameKeys(levels: seq<LevelInput>): (r: seq<string>)
    ensures |r| == |levels|
    ensures forall i :: 0 <= i < |r| ==> r[i] == NameKey(levels[i])
  {
    seq(|levels|, i requires 0 <= i < |levels| => NameKey(levels[i]))
  }

  /** xs.filter((x, i) => xs.indexOf(x) !== i): every repeat of an earlier element. */
  function Repeats(xs: seq<string>): (r: seq<string>)
    ensures forall x :: x in r ==> x in xs
  {
    if |xs| == 0 then []
    else
      var init := xs[..|xs| - 1];
      var last := xs[|xs| - 1];
      Repeats(init) + (if last in init then [last] else [])
  }

  predicate AllDistinct(xs: seq<string>)
  {
    forall i, j :: 0 <= i < j < |xs| ==> xs[i] != xs[j]
  }

  /** No repeats exactly when all elements differ. */
  lemma {:induction false} NoRepeatsIffDistinct(xs: seq<string>)
    ensures |Repeats(xs)| == 0 <==> AllDistinct(xs)
    decreases |xs|
  {
    if |xs| > 0 {
      var init := xs[..|xs| - 1];
      var last := xs[|xs| - 1];
      NoRepeatsIffDistinct(init);
      assert forall i :: 0 <= i < |init| ==> init[i] == xs[i];
      if last in init {
        var k :| 0 <= k < |init| && init[k] == last;
        assert xs[k] == xs[|xs| - 1];
      }
      if AllDistinct(xs) {
        assert AllDistinct(init);
      }
    }
  }

  /** Array sort comparator a - b on parsed minimums: negative only when both are numbers. */
  predicate MinBefore(a: LevelInput, b: LevelInput)
  {
    Below(MinOf(a), MinOf(b))
  }

  /** x placed before the first level that does not sort before it. */
  function InsertByMin(x: LevelInput, s: seq<LevelInput>): (r: seq<LevelInput>)
    ensures multiset(r) == multiset(s) + multiset{x}
  {
    if |s| == 0 then [x]
    else if !MinBefore(s[0], x) then [x] + s
    else
      assert s == [s[0]] + s[1..];
      [s[0]] + InsertByMin(x, s[1..])
  }

  /** [...levels].sort(by minScore): stable, as Array.prototype.sort is. */
  function SortByMin(levels: seq<LevelInput>): (r: seq<LevelInput>)
    ensures multiset(r) == multiset(levels)
    ensures |r| == |levels|
  {
    if |levels| == 0 then []
    else
      assert levels == [levels[0]] + levels[1..];
      InsertByMin(levels[0], SortByMin(levels[1..]))
  }

  predicate Numeric(l: LevelInput)
  {
    MinOf(l).Some? && MaxOf(l).Some?
  }

  predicate AscendingMin(s: seq<LevelInput>)
  {
    forall i, j :: 0 <= i < j < |s| ==> !MinBefore(s[j], s[i])
  }

  lemma {:induction false} InsertKeepsAscending(x: LevelInput, s: seq<LevelInput>)
    requires Numeric(x) && (forall l :: l in s ==> Numeric(l)) && AscendingMin(s)
    ensures AscendingMin(InsertByMin(x, s))
    decreases |s|
  {
    if |s| > 0 && !MinBefore(s[0], x) {
      forall j | 0 <= j < |s|
        ensures !MinBefore(s[j], x)
      {
        assert s[j] in s && s[0] in s;
        if j > 0 {
          assert !MinBefore(s[j], s[0]);
        }
      }
      assert forall j :: 0 < j < |[x] + s| ==> ([x] + s)[j] == s[j - 1];
    } else if |s| > 0 {
      assert forall l :: l in s[1..] ==> l in s;
      InsertKeepsAscending(x, s[1..]);
      var rest := InsertByMin(x, s[1..]);
      forall j | 0 <= j < |rest|
        ensures !MinBefore(rest[j], s[0])
      {
        assert rest[j] in multiset(rest);
        assert rest[j] in s[1..] || rest[j] == x;
        if rest[j] in s[1..] {
          var k :| 0 <= k < |s[1..]| && s[1..][k] == rest[j];
          assert s[k + 1] == rest[j];
        }
      }
    }
  }

  /** With every score numeric the sorted copy ascends by minScore. */
  lemma {:induction false} SortAscends(levels: seq<LevelInput>)
    requires forall l :: l in levels ==> Numeric(l)
    ensures AscendingMin(SortByMin(levels))
    decreases |levels|
  {
    if |levels| > 0 {
      SortAscends(levels[1..]);
      var s := SortByMin(levels[1..]);
      forall l | l in s
        ensures Numeric(l)
      {
        assert l in multiset(s);
      }
      InsertKeepsAscending(levels[0], s);
    }
  }

  /**
   * The range loop over consecutive sorted levels from position i:
   * nextMin < currentMax + 1 rejects, with the names and numbers of the pair.
   */
  function RangeErrorFrom(sorted: seq<LevelInput>, i: nat): Option<LevelsError>
    decreases |sorted| - i
  {
    if i + 1 >= |sorted| then None
    else
      var current, next := sorted[i], sorted[i + 1];
      if MaxOf(current).Some? && MinOf(next).Some? && MinOf(next).value < MaxOf(current).value + 1
      then Some(BadRange(NameOf(next), MaxOf(current).value + 1, MaxOf(current).value))
      else RangeErrorFrom(sorted, i + 1)
  }

  method CheckRanges(sorted: seq<LevelInput>) returns (err: Option<LevelsError>)
    ensures err == RangeErrorFrom(sorted, 0)
  {
    var i := 0;
    while i + 1 < |sorted|
      invariant 0 <= i && (|sorted| == 0 || i < |sorted|)
      invariant RangeErrorFrom(sorted, 0) == RangeErrorFrom(sorted, i)
    {
      var currentMax, nextMin := MaxOf(sorted[i]), MinOf(sorted[i + 1]);
      if currentMax.Some? && nextMin.Some? && nextMin.value < currentMax.value + 1 {
        return Some(BadRange(NameOf(sorted[i + 1]), currentMax.value + 1, currentMax.value));
      }
      i := i + 1;
    }
    return None;
  }

  /** The whole validation of a PUT, in the order the route runs it. */
  function ValidateLevels(levels: seq<LevelInput>): Option<LevelsError>
  {
    var first := FirstLevelError(levels);
    if first.Some? then first
    else if |Repeats(NameKeys(levels))| > 0 then Some(DuplicateNames(Distinct(Repeats(NameKeys(levels)))))
    else RangeErrorFrom(SortByMin(levels), 0)
  }

  /** A level whose scores both parse and whose minScore is below its maxScore. */
  predicate Proper(l: LevelInput)
  {
    Below(MinOf(l), MaxOf(l))
  }

  /** A range check passed from position i: every later range starts above every earlier one's end. */
  lemma {:induction false} RangesPassedApart(s: seq<LevelInput>, i: nat, j: nat, k: nat)
    requires forall m :: 0 <= m < |s| ==> Proper(s[m])
    requires RangeErrorFrom(s, i).None?
    requires i <= j < k < |s|
    ensures Below(MaxOf(s[j]), MinOf(s[k]))
    decreases k - j, |s| - i
  {
    if i < j {
      RangesPassedApart(s, i + 1, j, k);
    } else {
      assert Proper(s[j]) && Proper(s[j + 1]);
      if k > j + 1 {
        RangesPassedApart(s, i + 1, j + 1, k);
        assert Proper(s[k]);
      }
    }
  }

  /**
   * An accepted list of numeric levels has pairwise disjoint ranges: of
   * any two different levels, one ends before the other starts.
   */
  lemma AcceptedRangesDisjoint(levels: seq<LevelInput>, x: LevelInput, y: LevelInput)
    requires ValidateLevels(levels).None?
    requires forall l :: l in levels ==> Numeric(l)
    requires x in levels && y in levels && x != y
    ensures Below(MaxOf(x), MinOf(y)) || Below(MaxOf(y), MinOf(x))
  {
    ValidatedParts(levels);
    var s := SortByMin(levels);
    SortedMembers(levels);
    SortedProper(levels, s);
    MembersApart(s, x, y);
  }

  /** Two different members of a list that passed the range check lie apart. */
  lemma MembersApart(s: seq<LevelInput>, x: LevelInput, y: LevelInput)
    requires forall m :: 0 <= m < |s| ==> Proper(s[m])
    requires RangeErrorFrom(s, 0).None?
    requires x in s && y in s && x != y
    ensures Below(MaxOf(x), MinOf(y)) || Below(MaxOf(y), MinOf(x))
  {
    var p := IndexOf(s, x);
    var q := IndexOf(s, y);
    if p < q {
      RangesPassedApart(s, 0, p, q);
    } else {
      RangesPassedApart(s, 0, q, p);
    }
  }

  /** Every entry of the sorted copy of an accepted numeric list is proper. */
  lemma SortedProper(levels: seq<LevelInput>, s: seq<LevelInput>)
    requires FirstLevelError(levels).None?
    requires forall l :: l in levels ==> Numeric(l)
    requires forall l :: l in s <==> l in levels
    ensures forall m :: 0 <= m < |s| ==> Proper(s[m])
  {
    forall m | 0 <= m < |s|
      ensures Proper(s[m])
    {
      assert s[m] in levels;
      AcceptedLevel(levels, s[m]);
    }
  }

  /** A position of a member. */
  lemma IndexOf(s: seq<LevelInput>, x: LevelInput) returns (p: nat)
    requires x in s
    ensures p < |s| && s[p] == x
  {
    p :| 0 <= p < |s| && s[p] == x;
  }

  /** The three stages of an accepted validation. */
  lemma ValidatedParts(levels: seq<LevelInput>)
    requires ValidateLevels(levels).None?
    ensures FirstLevelError(levels).None?
    ensures |Repeats(NameKeys(levels))| == 0
    ensures RangeErrorFrom(SortByMin(levels), 0).None?
  {
  }

  lemma SortedMembers(levels: seq<LevelInput>)
    ensures forall l :: l in SortByMin(levels) <==> l in levels
  {
    var s := SortByMin(levels);
    forall l
      ensures l in s <==> l in levels
    {
      assert l in s <==> l in multiset(s);
      assert l in levels <==> l in multiset(levels);
    }
  }

  /** Every level of an accepted list passed its own checks. */
  lemma AcceptedLevel(levels: seq<LevelInput>, l: LevelInput)
    requires FirstLevelError(levels).None? && l in levels
    ensures LevelError(l).None?
  {
    var k :| 0 <= k < |levels| && levels[k] == l;
  }

  /** Accepted names are distinct ignoring case and surrounding blanks. */
  lemma AcceptedNamesDistinct(levels: seq<LevelInput>)
    requires ValidateLevels(levels).None?
    ensures AllDistinct(NameKeys(levels))
    ensures forall l :: l in levels ==> Trim(NameOf(l)) != ""
  {
    ValidatedParts(levels);
    NoRepeatsIffDistinct(NameKeys(levels));
    forall l | l in levels
      ensures Trim(NameOf(l)) != ""
    {
      AcceptedLevel(levels, l);
    }
  }

  /**
   * Two levels that pass their own checks, with different names, whose
   * ranges overlap (the second starts at or before the first ends, 0-10
   * and 10-20 included) are rejected with the second level's name.
   */
  lemma OverlapRejected(a: LevelInput, b: LevelInput)
    requires LevelError(a).None? && LevelError(b).None? && NameKey(a) != NameKey(b)
    requires Numeric(a) && Numeric(b)
    requires MinOf(a).value <= MinOf(b).value <= MaxOf(a).value
    ensures ValidateLevels([a, b]) == Some(BadRange(NameOf(b), MaxOf(a).value + 1, MaxOf(a).value))
  {
    PairPasses(a, b);
    PairNamesDistinct(a, b);
    SortPair(a, b);
    RangePair(a, b);
  }

  lemma RangePair(a: LevelInput, b: LevelInput)
    requires Numeric(a) && Numeric(b) && MinOf(b).value <= MaxOf(a).value
    ensures RangeErrorFrom([a, b], 0) == Some(BadRange(NameOf(b), MaxOf(a).value + 1, MaxOf(a).value))
  {
  }

  lemma SortPair(a: LevelInput, b: LevelInput)
    requires !MinBefore(b, a)
    ensures SortByMin([a, b]) == [a, b]
  {
    var s := [a, b];
    assert s[1..] == [b] && [b][1..] == [];
    assert SortByMin([b]) == InsertByMin(b, []) == [b];
    assert InsertByMin(a, [b]) == [a] + [b];
  }

  lemma PairPasses(a: LevelInput, b: LevelInput)
    requires LevelError(a).None? && LevelError(b).None?
    ensures FirstLevelError([a, b]).None?
  {
    assert [a, b][1..] == [b] && [b][1..] == [];
    assert FirstLevelError([b]) == FirstLevelError([]);
  }

  lemma PairNamesDistinct(a: LevelInput, b: LevelInput)
    requires NameKey(a) != NameKey(b)
    ensures Repeats(NameKeys([a, b])) == []
  {
    var keys := NameKeys([a, b]);
    assert keys[0] != keys[1];
    RepeatsOfTwo(keys);
  }

  lemma RepeatsOfTwo(xs: seq<string>)
    requires |xs| == 2 && xs[0] != xs[1]
    ensures Repeats(xs) == []
  {
    var init := xs[..1];
    assert |init| == 1 && init[0] == xs[0];
    assert |init[..0]| == 0;
    assert Repeats(init) == [];
    assert xs[1] !in init;
  }

  /** The row an incoming level is saved as: String(level.level).trim() and parseInt of both scores. */
  datatype LevelRow = LevelRow(band: string, minScore: int, maxScore: int)

  /** The incoming rows in save order, or None when a score does not parse (the write then fails). */
  function LevelRows(ordered: seq<LevelInput>): (r: Option<seq<LevelRow>>)
    ensures r.Some? <==> forall i :: 0 <= i < |ordered| ==> Numeric(ordered[i])
    ensures r.Some? ==> |r.value| == |ordered|
    ensures r.Some? ==> forall i :: 0 <= i < |ordered| ==> r.value[i] == RowOf(ordered[i])
  {
    if forall i :: 0 <= i < |ordered| ==> Numeric(ordered[i])
    then Some(seq(|ordered|, i requires 0 <= i < |ordered| => RowOf(ordered[i])))
    else None
  }

  function RowOf(l: LevelInput): LevelRow
    requires Numeric(l)
  {
    LevelRow(Trim(NameOf(l)), MinOf(l).value, MaxOf(l).value)
  }

  /** No two levels share a key. */
  predicate KeysDistinct(key: LevelInput -> string, s: seq<LevelInput>)
  {
    forall i, j :: 0 <= i < j < |s| ==> key(s[i]) != key(s[j])
  }

  /** Inserting a level whose key is new keeps the keys distinct. */
  lemma {:induction false} InsertKeepsKeysDistinct(key: LevelInput -> string, x: LevelInput, s: seq<LevelInput>)
    requires KeysDistinct(key, s) && forall l :: l in s ==> key(l) != key(x)
    ensures KeysDistinct(key, InsertByMin(x, s))
    decreases |s|
  {
    if |s| > 0 && MinBefore(s[0], x) {
      assert forall l :: l in s[1..] ==> l in s;
      InsertKeepsKeysDistinct(key, x, s[1..]);
      var rest := InsertByMin(x, s[1..]);
      forall j | 0 <= j < |rest|
        ensures key(rest[j]) != key(s[0])
      {
        assert rest[j] in multiset(rest);
        if rest[j] != x {
          assert rest[j] in s[1..];
          var k :| 0 <= k < |s[1..]| && s[1..][k] == rest[j];
          assert s[k + 1] == rest[j];
        }
      }
    } else if |s| > 0 {
      forall j | 0 < j < |[x] + s|
        ensures key(([x] + s)[j]) != key(x)
      {
        assert ([x] + s)[j] == s[j - 1] && s[j - 1] in s;
      }
    }
  }

  /** Sorting keeps the keys distinct. */
  lemma {:induction false} SortKeepsKeysDistinct(key: LevelInput -> string, levels: seq<LevelInput>)
    requires KeysDistinct(key, levels)
    ensures KeysDistinct(key, SortByMin(levels))
    decreases |levels|
  {
    if |levels| > 0 {
      var tail := levels[1..];
      assert forall i :: 0 <= i < |tail| ==> tail[i] == levels[i + 1];
      SortKeepsKeysDistinct(key, tail);
      var s := SortByMin(tail);
      forall l | l in s
        ensures key(l) != key(levels[0])
      {
        assert l in multiset(s);
        var k :| 0 <= k < |tail| && tail[k] == l;
      }
      InsertKeepsKeysDistinct(key, levels[0], s);
    }
  }

  /**
   * The saved band names of an accepted list are pairwise different:
   * names that differ after trim().toUpperCase() differ after trim().
   */
  lemma AcceptedBandsDistinct(levels: seq<LevelInput>, rows: seq<LevelRow>)
    requires ValidateLevels(levels).None?
    requires LevelRows(SortByMin(levels)) == Some(rows)
    ensures DistinctBands(rows)
  {
    AcceptedNamesDistinct(levels);
    var ordered := SortByMin(levels);
    assert KeysDistinct(NameKey, levels) by {
      var keys := NameKeys(levels);
      assert forall i :: 0 <= i < |levels| ==> keys[i] == NameKey(levels[i]);
    }
    SortKeepsKeysDistinct(NameKey, levels);
    forall i, j | 0 <= i < j < |rows|
      ensures rows[i].band != rows[j].band
    {
      assert NameKey(ordered[i]) != NameKey(ordered[j]);
    }
  }

  predicate DistinctBands(rows: seq<LevelRow>)
  {
    forall i, j :: 0 <= i < j < |rows| ==> rows[i].band != rows[j].band
  }

  /** The names of the incoming rows. */
  function BandNames(rows: seq<LevelRow>): set<string>
  {
    set r | r in rows :: r.band
  }

  /** The unique index on BandScore.band agrees with the rows. */
  predicate IndexMatches(bands: map<nat, Band>, bandIds: map<string, nat>)
  {
    && (forall name :: name in bandIds ==> bandIds[name] in bands && bands[bandIds[name]].band == name)
    && (forall id :: id in bands ==> bands[id].band in bandIds && bandIds[bands[id].band] == id)
  }

  /** Feedback rows that do not point at one of the removed bands. */
  function FeedbackKept(feedback: map<nat, FeedbackRow>, removed: set<nat>): (r: map<nat, FeedbackRow>)
    ensures forall id :: id in r <==>
      (id in feedback && !(feedback[id].bandScoreId.Some? && feedback[id].bandScoreId.value in removed))
    ensures forall id :: id in r ==> r[id] == feedback[id]
  {
    map id | id in feedback && !(feedback[id].bandScoreId.Some? && feedback[id].bandScoreId.value in removed)
      :: feedback[id]
  }

  /** The band an incoming row is saved as, at position order of the list. */
  function BandOf(row: LevelRow, order: nat): Band
  {
    Band(row.band, row.minScore, row.maxScore, order)
  }

  /**
   * One upsert by the unique band name: the band with that name gets the
   * row's values, or a new band is created under the next free id.
   */
  function Upsert(b: map<nat, Band>, ids: map<string, nat>, next: nat, row: LevelRow, order: nat)
    : (r: (map<nat, Band>, map<string, nat>, nat))
    ensures row.band in r.1 && r.1[row.band] in r.0 && r.0[r.1[row.band]] == BandOf(row, order)
    ensures forall name :: name in ids ==> name in r.1 && r.1[name] == ids[name]
    ensures b.Keys <= r.0.Keys
  {
    if row.band in ids then (b[ids[row.band] := BandOf(row, order)], ids, next)
    else (b[next := BandOf(row, order)], ids[row.band := next], next + 1)
  }

  /** The ids of the bands whose name is not incoming: deleted with their feedback. */
  function Removed(bands: map<nat, Band>, rows: seq<LevelRow>): (r: set<nat>)
    ensures forall id :: id in r <==> id in bands && bands[id].band !in BandNames(rows)
  {
    set id | id in bands && bands[id].band !in BandNames(rows)
  }

  /** Feedback.bandScoreId refers to an existing BandScore row. */
  predicate FeedbackPointsAtBands(feedback: map<nat, FeedbackRow>, bands: map<nat, Band>)
  {
    forall id :: id in feedback && feedback[id].bandScoreId.Some? ==> feedback[id].bandScoreId.value in bands
  }

  /** Every incoming row is the band its name is indexed to, with order i + 1. */
  predicate Stored(rows: seq<LevelRow>, bands: map<nat, Band>, bandIds: map<string, nat>)
  {
    forall i :: 0 <= i < |rows| ==>
      rows[i].band in bandIds && bandIds[rows[i].band] in bands && bands[bandIds[rows[i].band]] == BandOf(rows[i], i + 1)
  }

  /** The state of the upsert loop after the first i rows. */
  ghost predicate Upserted(rows: seq<LevelRow>, i: nat, b: map<nat, Band>, ids: map<string, nat>,
                           kept: map<string, nat>, next: nat)
  {
    && i <= |rows|
    && IndexMatches(b, ids)
    && (forall id :: id in b ==> id < next)
    && ids.Keys == kept.Keys + BandNames(rows[..i])
    && (forall name :: name in kept && name in ids ==> ids[name] == kept[name])
    && Stored(rows[..i], b, ids)
  }

  lemma UpsertStep(rows: seq<LevelRow>, i: nat, b: map<nat, Band>, ids: map<string, nat>,
                   kept: map<string, nat>, next: nat)
    requires Upserted(rows, i, b, ids, kept, next) && i < |rows| && DistinctBands(rows)
    ensures var r := Upsert(b, ids, next, rows[i], i + 1);
      Upserted(rows, i + 1, r.0, r.1, kept, r.2) && next <= r.2
  {
    var row := rows[i];
    UpsertKeepsIndex(b, ids, next, row, i + 1);
    BandNamesStep(rows, i);
    UpsertStored(rows, i, b, ids, next);
  }

  lemma BandNamesStep(rows: seq<LevelRow>, i: nat)
    requires i < |rows|
    ensures BandNames(rows[..i + 1]) == BandNames(rows[..i]) + {rows[i].band}
  {
    assert rows[..i + 1] == rows[..i] + [rows[i]];
  }

  /** Upserting row i keeps every earlier row stored and stores row i. */
  lemma UpsertStored(rows: seq<LevelRow>, i: nat, b: map<nat, Band>, ids: map<string, nat>, next: nat)
    requires i < |rows| && DistinctBands(rows)
    requires IndexMatches(b, ids) && (forall id :: id in b ==> id < next)
    requires Stored(rows[..i], b, ids)
    ensures var r := Upsert(b, ids, next, rows[i], i + 1);
      Stored(rows[..i + 1], r.0, r.1)
  {
    var row := rows[i];
    var r := Upsert(b, ids, next, row, i + 1);
    var done := rows[..i + 1];
    forall j | 0 <= j < i + 1
      ensures done[j].band in r.1 && r.1[done[j].band] in r.0 && r.0[r.1[done[j].band]] == BandOf(done[j], j + 1)
    {
      if j < i {
        assert done[j] == rows[..i][j];
        UpsertKeepsOther(b, ids, next, row, i + 1, done[j].band);
      }
    }
  }

  /** An upsert keeps the index in step with the bands and the ids below the next free one. */
  lemma UpsertKeepsIndex(b: map<nat, Band>, ids: map<string, nat>, next: nat, row: LevelRow, order: nat)
    requires IndexMatches(b, ids) && forall id :: id in b ==> id < next
    ensures var r := Upsert(b, ids, next, row, order);
      IndexMatches(r.0, r.1) && (forall id :: id in r.0 ==> id < r.2) && next <= r.2
      && r.1.Keys == ids.Keys + {row.band}
  {
  }

  /** An upsert leaves the band of every other name as it was. */
  lemma UpsertKeepsOther(b: map<nat, Band>, ids: map<string, nat>, next: nat, row: LevelRow, order: nat, name: string)
    requires IndexMatches(b, ids) && forall id :: id in b ==> id < next
    requires name in ids && name != row.band
    ensures var r := Upsert(b, ids, next, row, order);
      name in r.1 && r.1[name] in r.0 && r.0[r.1[name]] == b[ids[name]]
  {
    if row.band in ids {
      assert b[ids[row.band]].band == row.band;
    }
  }

  /** After the deletions the kept bands and their index start the upsert loop. */
  lemma UpsertStart(rows: seq<LevelRow>, bands: map<nat, Band>, bandIds: map<string, nat>, next: nat,
                    b: map<nat, Band>, ids: map<string, nat>)
    requires IndexMatches(bands, bandIds) && forall id :: id in bands ==> id < next
    requires b == map id | id in bands && bands[id].band in BandNames(rows) :: bands[id]
    requires ids == map name | name in bandIds && name in BandNames(rows) :: bandIds[name]
    ensures Upserted(rows, 0, b, ids, ids, next)
  {
    assert rows[..0] == [];
  }

  /** After the last row every incoming name is indexed and no other. */
  lemma UpsertDone(rows: seq<LevelRow>, b: map<nat, Band>, ids: map<string, nat>, kept: map<string, nat>, next: nat)
    requires Upserted(rows, |rows|, b, ids, kept, next) && kept.Keys <= BandNames(rows)
    ensures ids.Keys == BandNames(rows)
    ensures Stored(rows, b, ids)
  {
    assert rows[..|rows|] == rows;
  }

  /** A name that was indexed before and still is keeps its id. */
  lemma KeptIdsStay(rows: seq<LevelRow>, bandIds: map<string, nat>, b: map<nat, Band>, ids: map<string, nat>,
                    kept: map<string, nat>, next: nat)
    requires Upserted(rows, |rows|, b, ids, kept, next)
    requires kept == map name | name in bandIds && name in BandNames(rows) :: bandIds[name]
    requires ids.Keys == BandNames(rows)
    ensures forall name :: name in bandIds && name in ids ==> ids[name] == bandIds[name]
  {
  }

  // ---- Templates ----

  /** One element of body.templates: the band name and the feedback text, as sent. */
  datatype TemplateInput = TemplateInput(level: Option<string>, text: Option<string>)

  datatype TemplatesError =
    | TemplatesNotAnArray
    | IncompleteTemplate
    | DuplicateLevels(levels: seq<string>)
    | UnknownLevels(levels: seq<string>)

  /** A template to store: the id of its band and its text. */
  datatype Template = Template(bandId: nat, text: string)

  /** A non-empty level that is not only blanks, and a non-empty text. */
  predicate Complete(t: TemplateInput)
  {
    t.level.Some? && t.level.value != "" && t.text.Some? && t.text.value != "" && !Blank(t.level.value)
  }

  /** The required-fields loop: returns on the first incomplete template. */
  method CheckTemplates(templates: seq<TemplateInput>) returns (ok: bool)
    ensures ok <==> forall i :: 0 <= i < |templates| ==> Complete(templates[i])
  {
    for i := 0 to |templates|
      invariant forall j :: 0 <= j < i ==> Complete(templates[j])
    {
      if !Complete(templates[i]) {
        return false;
      }
    }
    return true;
  }

  /** The text of t.level; absent reads as the empty string. */
  function LevelOf(t: TemplateInput): string
  {
    if t.level.Some? then t.level.value else ""
  }

  /** t.level.trim().toUpperCase(): the key template levels are compared by. */
  function LevelKey(t: TemplateInput): string
  {
    Upper(Trim(LevelOf(t)))
  }

  function LevelKeys(templates: seq<TemplateInput>): (r: seq<string>)
    ensures |r| == |templates|
    ensures forall i :: 0 <= i < |r| ==> r[i] == LevelKey(templates[i])
  {
    seq(|templates|, i requires 0 <= i < |templates| => LevelKey(templates[i]))
  }

  /** The levels, exactly as sent, that name no band. */
  function Unknown(templates: seq<TemplateInput>, bandIds: map<string, nat>): (r: seq<string>)
    ensures forall x :: x in r <==> exists i :: 0 <= i < |templates| && LevelOf(templates[i]) == x && x !in bandIds
  {
    if |templates| == 0 then []
    else
      var rest := Unknown(templates[1..], bandIds);
      var x := LevelOf(templates[0]);
      assert forall y :: y in rest <==>
        exists i :: 0 < i < |templates| && LevelOf(templates[i]) == y && y !in bandIds by {
        forall y | y in rest
          ensures exists i :: 0 < i < |templates| && LevelOf(templates[i]) == y && y !in bandIds
        {
          var j :| 0 <= j < |templates| - 1 && LevelOf(templates[1..][j]) == y && y !in bandIds;
          assert templates[1..][j] == templates[j + 1];
        }
        forall y, i | 0 < i < |templates| && LevelOf(templates[i]) == y && y !in bandIds
          ensures y in rest
        {
          assert templates[1..][i - 1] == templates[i];
        }
      }
      if x in bandIds then rest else [x] + rest
  }

  /** The whole validation of a PUT of templates against the current band index. */
  function ValidateTemplates(templates: seq<TemplateInput>, bandIds: map<string, nat>): Option<TemplatesError>
  {
    if exists i :: 0 <= i < |templates| && !Complete(templates[i]) then Some(IncompleteTemplate)
    else if |Repeats(LevelKeys(templates))| > 0 then Some(DuplicateLevels(Distinct(Repeats(LevelKeys(templates)))))
    else if |Unknown(templates, bandIds)| > 0 then Some(UnknownLevels(Distinct(Unknown(templates, bandIds))))
    else None
  }

  /** An accepted template names a band exactly, and carries a non-empty text. */
  lemma AcceptedTemplate(templates: seq<TemplateInput>, bandIds: map<string, nat>, i: nat)
    requires ValidateTemplates(templates, bandIds).None? && i < |templates|
    ensures templates[i].level.Some? && templates[i].level.value in bandIds
    ensures templates[i].text.Some? && templates[i].text.value != ""
  {
    assert Complete(templates[i]);
    assert |Unknown(templates, bandIds)| == 0;
  }

  /** The parts of an accepted validation. */
  lemma AcceptedTemplateParts(templates: seq<TemplateInput>, bandIds: map<string, nat>)
    requires ValidateTemplates(templates, bandIds).None?
    ensures forall i :: 0 <= i < |templates| ==> LevelOf(templates[i]) in bandIds && TextOf(templates[i]) != ""
    ensures AllDistinct(LevelKeys(templates))
  {
    forall i | 0 <= i < |templates|
      ensures LevelOf(templates[i]) in bandIds && TextOf(templates[i]) != ""
    {
      AcceptedTemplate(templates, bandIds, i);
    }
    NoRepeatsIffDistinct(LevelKeys(templates));
  }

  /** The text of t.text; absent reads as the empty string. */
  function TextOf(t: TemplateInput): string
  {
    if t.text.Some? then t.text.value else ""
  }

  /**
   * The templates to store: levelNameToId.get(t.level) and t.text. Only
   * accepted lists reach the transaction, where every level is a band name.
   */
  function TemplatesOf(templates: seq<TemplateInput>, bandIds: map<string, nat>): (r: seq<Template>)
    ensures |r| == |templates|
    ensures forall i :: 0 <= i < |r| && LevelOf(templates[i]) in bandIds ==>
      r[i] == Template(bandIds[LevelOf(templates[i])], TextOf(templates[i]))
  {
    seq(|templates|, i requires 0 <= i < |templates| =>
      var name := LevelOf(templates[i]);
      Template(if name in bandIds then bandIds[name] else 0, TextOf(templates[i])))
  }

  /** No two templates point at the same band. */
  predicate DistinctBandIds(ts: seq<Template>)
  {
    forall i, j :: 0 <= i < j < |ts| ==> ts[i].bandId != ts[j].bandId
  }

  /**
   * Accepted templates point at pairwise different bands: their names differ
   * after trim().toUpperCase(), so they differ, and the index maps
   * different names to different bands.
   */
  lemma AcceptedTemplatesDistinct(templates: seq<TemplateInput>, bands: map<nat, Band>, bandIds: map<string, nat>)
    requires ValidateTemplates(templates, bandIds).None? && IndexMatches(bands, bandIds)
    ensures forall i :: 0 <= i < |templates| ==> LevelOf(templates[i]) in bandIds && TextOf(templates[i]) != ""
    ensures DistinctBandIds(TemplatesOf(templates, bandIds))
  {
    AcceptedTemplateParts(templates, bandIds);
    DistinctKeysDistinctBands(templates, bands, bandIds);
  }

  /** Every accepted template points at a stored band. */
  lemma AcceptedTemplatesKnown(templates: seq<TemplateInput>, bands: map<nat, Band>, bandIds: map<string, nat>)
    requires forall i :: 0 <= i < |templates| ==> LevelOf(templates[i]) in bandIds && TextOf(templates[i]) != ""
    requires IndexMatches(bands, bandIds)
    ensures forall t :: t in TemplatesOf(templates, bandIds) ==> t.bandId in bands
  {
    var ts := TemplatesOf(templates, bandIds);
    forall t | t in ts
      ensures t.bandId in bands
    {
      var k :| 0 <= k < |ts| && ts[k] == t;
      assert LevelOf(templates[k]) in bandIds;
    }
  }

  lemma DistinctKeysDistinctBands(templates: seq<TemplateInput>, bands: map<nat, Band>, bandIds: map<string, nat>)
    requires forall i :: 0 <= i < |templates| ==> LevelOf(templates[i]) in bandIds
    requires AllDistinct(LevelKeys(templates)) && IndexMatches(bands, bandIds)
    ensures DistinctBandIds(TemplatesOf(templates, bandIds))
  {
    var keys := LevelKeys(templates);
    var ts := TemplatesOf(templates, bandIds);
    forall i, j | 0 <= i < j < |ts|
      ensures ts[i].bandId != ts[j].bandId
    {
      assert keys[i] != keys[j];
      IndexInjective(bands, bandIds, LevelOf(templates[i]), LevelOf(templates[j]));
    }
  }

  /** The unique index maps different names to different bands. */
  lemma IndexInjective(bands: map<nat, Band>, bandIds: map<string, nat>, x: string, y: string)
    requires IndexMatches(bands, bandIds) && x in bandIds && y in bandIds && x != y
    ensures bandIds[x] != bandIds[y]
  {
    assert bands[bandIds[x]].band == x && bands[bandIds[y]].band == y;
  }

  /** The band ids of the templates. */
  function TemplateBands(ts: seq<Template>): set<nat>
  {
    set t | t in ts :: t.bandId
  }

  /** The Feedback row a template is stored as. */
  function RowOfTemplate(t: Template): FeedbackRow
  {
    FeedbackRow(t.text, Some(t.bandId))
  }

  function TemplateRows(ts: seq<Template>): set<FeedbackRow>
  {
    set t | t in ts :: RowOfTemplate(t)
  }

  /** Feedback rows whose band is one of the incoming ones; the rest are deleted. */
  function KeptForTemplates(feedback: map<nat, FeedbackRow>, ts: seq<Template>): (r: map<nat, FeedbackRow>)
    ensures forall id :: id in r <==>
      id in feedback && feedback[id].bandScoreId.Some? && feedback[id].bandScoreId.value in TemplateBands(ts)
    ensures forall id :: id in r ==> r[id] == feedback[id]
  {
    map id | id in feedback && feedback[id].bandScoreId.Some? && feedback[id].bandScoreId.value in TemplateBands(ts)
      :: feedback[id]
  }

  /** The state of the template loop after the first i templates. */
  ghost predicate Placed(ts: seq<Template>, i: nat, kept: map<nat, FeedbackRow>, fb: map<nat, FeedbackRow>,
                         at: seq<nat>, next: nat)
  {
    && i <= |ts| && |at| == i
    && (forall j :: 0 <= j < i ==> at[j] in fb && fb[at[j]] == RowOfTemplate(ts[j]))
    && (forall id :: id in fb ==> id < next)
    && kept.Keys <= fb.Keys
    && (forall id :: id in fb ==> fb[id].bandScoreId.Some? && fb[id].bandScoreId.value in TemplateBands(ts))
    && (forall id :: id in fb ==> (id in kept && fb[id] == kept[id]) || fb[id] in TemplateRows(ts))
  }

  lemma PlaceStart(ts: seq<Template>, kept: map<nat, FeedbackRow>, next: nat)
    requires forall id :: id in kept ==> id < next
    requires forall id :: id in kept ==> kept[id].bandScoreId.Some? && kept[id].bandScoreId.value in TemplateBands(ts)
    ensures Placed(ts, 0, kept, kept, [], next)
  {
  }

  /**
   * One template: the row id holding it is either an existing row of its
   * band (updated) or next (created).
   */
  lemma PlaceStep(ts: seq<Template>, i: nat, kept: map<nat, FeedbackRow>, fb: map<nat, FeedbackRow>,
                  at: seq<nat>, next: nat, id: nat, next': nat)
    requires Placed(ts, i, kept, fb, at, next) && i < |ts| && DistinctBandIds(ts)
    requires (id in fb && fb[id].bandScoreId == Some(ts[i].bandId) && next' == next)
          || (id == next && next' == next + 1)
    ensures Placed(ts, i + 1, kept, fb[id := RowOfTemplate(ts[i])], at + [id], next')
  {
    var fb' := fb[id := RowOfTemplate(ts[i])];
    assert ts[i] in ts;
    forall j | 0 <= j < i + 1
      ensures (at + [id])[j] in fb' && fb'[(at + [id])[j]] == RowOfTemplate(ts[j])
    {
      if j < i {
        assert (at + [id])[j] == at[j];
        assert fb[at[j]].bandScoreId == Some(ts[j].bandId);
        assert ts[j].bandId != ts[i].bandId;
      }
    }
  }

  /** The bands that have feedback. */
  function FeedbackBands(feedback: map<nat, FeedbackRow>): set<nat>
  {
    set id | id in feedback && feedback[id].bandScoreId.Some? :: feedback[id].bandScoreId.value
  }

  /** Rows only of the incoming bands, and a row for each: the band sets agree. */
  lemma SameBandSet(ts: seq<Template>, fb: map<nat, FeedbackRow>)
    requires forall id :: id in fb ==> fb[id].bandScoreId.Some? && fb[id].bandScoreId.value in TemplateBands(ts)
    requires forall j :: 0 <= j < |ts| ==> RowOfTemplate(ts[j]) in fb.Values
    ensures FeedbackBands(fb) == TemplateBands(ts)
  {
    forall b | b in TemplateBands(ts)
      ensures b in FeedbackBands(fb)
    {
      var j :| 0 <= j < |ts| && ts[j].bandId == b;
      assert RowOfTemplate(ts[j]) in fb.Values;
      var id :| id in fb && fb[id] == RowOfTemplate(ts[j]);
    }
  }

  /** After the last template each of them is stored. */
  lemma TemplatesPlaced(ts: seq<Template>, kept: map<nat, FeedbackRow>, fb: map<nat, FeedbackRow>, at: seq<nat>, next: nat)
    requires Placed(ts, |ts|, kept, fb, at, next)
    ensures forall j :: 0 <= j < |ts| ==> RowOfTemplate(ts[j]) in fb.Values
  {
    forall j | 0 <= j < |ts|
      ensures RowOfTemplate(ts[j]) in fb.Values
    {
      assert fb[at[j]] == RowOfTemplate(ts[j]);
    }
  }

  /** Saved rows ascend by minScore, so order 1..n follows the score ranges upwards. */
  lemma SavedRowsAscend(levels: seq<LevelInput>, rows: seq<LevelRow>)
    requires LevelRows(SortByMin(levels)) == Some(rows)
    ensures forall i, j :: 0 <= i < j < |rows| ==> rows[i].minScore <= rows[j].minScore
  {
    var s := SortByMin(levels);
    forall l | l in levels
      ensures Numeric(l)
    {
      SortedMembers(levels);
      var k :| 0 <= k < |s| && s[k] == l;
    }
    SortAscends(levels);
    forall i, j | 0 <= i < j < |rows|
      ensures rows[i].minScore <= rows[j].minScore
    {
      assert !MinBefore(s[j], s[i]);
    }
  }

  /** The saved levels by ascending order: row i was saved with order i + 1. */
  function Listing(rows: seq<LevelRow>, bandIds: map<string, nat>): (r: seq<SavedLevel>)
    requires forall i :: 0 <= i < |rows| ==> rows[i].band in bandIds
    ensures |r| == |rows|
    ensures forall i :: 0 <= i < |rows| ==> r[i] == SavedLevel(bandIds[rows[i].band], BandOf(rows[i], i + 1))
  {
    seq(|rows|, i requires 0 <= i < |rows| => SavedLevel(bandIds[rows[i].band], BandOf(rows[i], i + 1)))
  }

  /** Once the index holds exactly the incoming names, every band is one of the incoming rows. */
  lemma StoredExactly(rows: seq<LevelRow>, bands: map<nat, Band>, bandIds: map<string, nat>)
    requires IndexMatches(bands, bandIds) && bandIds.Keys == BandNames(rows) && Stored(rows, bands, bandIds)
    ensures forall id :: id in bands ==> exists i :: 0 <= i < |rows| && bands[id] == BandOf(rows[i], i + 1)
  {
    forall id | id in bands
      ensures exists i :: 0 <= i < |rows| && bands[id] == BandOf(rows[i], i + 1)
    {
      var name := bands[id].band;
      assert name in BandNames(rows);
      var i :| 0 <= i < |rows| && rows[i].band == name;
      assert bandIds[name] == id;
    }
  }

  class FeedbackStore {
    var bands: map<nat, Band>
    var bandIds: map<string, nat>
    var feedback: map<nat, FeedbackRow>
    var nextId: nat

    ghost predicate Valid()
      reads this
    {
      && IndexMatches(bands, bandIds)
      && (forall id :: id in bands ==> id < nextId)
      && (forall id :: id in feedback ==> id < nextId)
      && FeedbackPointsAtBands(feedback, bands)
    }

    constructor ()
      ensures Valid() && bands == map[] && bandIds == map[] && feedback == map[]
    {
      bands, bandIds, feedback, nextId := map[], map[], map[], 0;
    }

    /**
     * The PUT transaction: bands whose name is not incoming are deleted with
     * their feedback, then each incoming row is upserted by name with order
     * i + 1. Kept bands keep their id.
     */
    method ReplaceLevels(rows: seq<LevelRow>)
      requires Valid() && DistinctBands(rows)
      modifies this
      ensures Valid()
      ensures bandIds.Keys == BandNames(rows)
      ensures Stored(rows, bands, bandIds)
      ensures forall name :: name in old(bandIds) && name in bandIds ==> bandIds[name] == old(bandIds)[name]
      ensures feedback == FeedbackKept(old(feedback), Removed(old(bands), rows))
    {
      var incoming := BandNames(rows);
      var removed := Removed(bands, rows);
      var fb := FeedbackKept(feedback, removed);
      var b := map id | id in bands && id !in removed :: bands[id];
      var ids := map name | name in bandIds && name in incoming :: bandIds[name];
      var next := nextId;
      ghost var kept, b0 := ids, b;
      UpsertStart(rows, bands, bandIds, nextId, b, ids);
      var i := 0;
      while i < |rows|
        invariant unchanged(this)
        invariant b0.Keys <= b.Keys
        invariant Upserted(rows, i, b, ids, kept, next)
        invariant nextId <= next
        invariant kept.Keys <= incoming
      {
        UpsertStep(rows, i, b, ids, kept, next);
        var r := Upsert(b, ids, next, rows[i], i + 1);
        b, ids, next := r.0, r.1, r.2;
        i := i + 1;
      }
      UpsertDone(rows, b, ids, kept, next);
      KeptIdsStay(rows, bandIds, b, ids, kept, next);
      assert forall id :: id in fb ==> id in feedback;
      assert FeedbackPointsAtBands(fb, b0);
      Write(b, ids, fb, next);
    }

    /** Stores a new state of all four fields at once. */
    method Write(b: map<nat, Band>, ids: map<string, nat>, fb: map<nat, FeedbackRow>, next: nat)
      requires IndexMatches(b, ids) && FeedbackPointsAtBands(fb, b)
      requires forall id :: id in b ==> id < next
      requires forall id :: id in fb ==> id < next
      modifies this
      ensures Valid()
      ensures bands == b && bandIds == ids && feedback == fb && nextId == next
    {
      bands, bandIds, feedback, nextId := b, ids, fb, next;
    }

    /**
     * The templates transaction: feedback rows whose band is not incoming are
     * deleted (a row without a band too), then each template updates the
     * text of a row of its band or creates one.
     */
    method ReplaceTemplates(ts: seq<Template>)
      requires Valid() && DistinctBandIds(ts) && forall t :: t in ts ==> t.bandId in bands
      modifies this
      ensures Valid()
      ensures bands == old(bands) && bandIds == old(bandIds)
      ensures forall id :: id in feedback ==>
        feedback[id].bandScoreId.Some? && feedback[id].bandScoreId.value in TemplateBands(ts)
      ensures forall j :: 0 <= j < |ts| ==> RowOfTemplate(ts[j]) in feedback.Values
      ensures FeedbackBands(feedback) == TemplateBands(ts)
      ensures KeptForTemplates(old(feedback), ts).Keys <= feedback.Keys
      ensures forall id :: id in feedback ==>
        (id in old(feedback) && feedback[id] == old(feedback)[id]) || feedback[id] in TemplateRows(ts)
    {
      var kept := KeptForTemplates(feedback, ts);
      var fb := kept;
      var next := nextId;
      ghost var at: seq<nat> := [];
      PlaceStart(ts, kept, next);
      for i := 0 to |ts|
        invariant unchanged(this)
        invariant nextId <= next
        invariant Placed(ts, i, kept, fb, at, next)
      {
        var t := ts[i];
        if exists id :: id in fb && fb[id].bandScoreId == Some(t.bandId) {
          var id :| id in fb && fb[id].bandScoreId == Some(t.bandId);
          PlaceStep(ts, i, kept, fb, at, next, id, next);
          fb, at := fb[id := RowOfTemplate(t)], at + [id];
        } else {
          PlaceStep(ts, i, kept, fb, at, next, next, next + 1);
          fb, at, next := fb[next := RowOfTemplate(t)], at + [next], next + 1;
        }
      }
      TemplatesPlaced(ts, kept, fb, at, next);
      SameBandSet(ts, fb);
      feedback, nextId := fb, next;
    }

    /**
     * PUT /api/tutor/feedback/levels. Only an ADMIN may replace the bands;
     * every check runs before the transaction, so a rejected request leaves
     * the store as it was. A score that does not parse passes the checks
     * (comparisons with NaN are false) but cannot be written, and the whole
     * transaction fails.
     */
    method PutLevels(user: Option<Role>, levels: Option<seq<LevelInput>>) returns (reply: LevelsReply)
      requires Valid()
      modifies this
      ensures Valid()
      ensures reply.LevelsUnauthorized? <==> user.None?
      ensures reply.LevelsForbidden? <==> user.Some? && user.value != Admin
      ensures reply.LevelsRejected? <==>
        user == Some(Admin) && (levels.None? || ValidateLevels(levels.value).Some?)
      ensures reply.LevelsRejected? ==>
        reply.error == if levels.None? then NotAnArray else ValidateLevels(levels.value).value
      ensures reply.LevelsFailed? <==>
        user == Some(Admin) && levels.Some? && ValidateLevels(levels.value).None?
        && LevelRows(SortByMin(levels.value)).None?
      ensures !reply.LevelsSaved? ==> unchanged(this)
      ensures reply.LevelsSaved? ==>
        var rows := LevelRows(SortByMin(levels.value)).value;
        && bandIds.Keys == BandNames(rows)
        && Stored(rows, bands, bandIds)
        && feedback == FeedbackKept(old(feedback), Removed(old(bands), rows))
        && |reply.levels| == |rows|
        && forall i :: 0 <= i < |rows| ==>
             reply.levels[i] == SavedLevel(bandIds[rows[i].band], BandOf(rows[i], i + 1))
    {
      if user.None? {
        return LevelsUnauthorized;
      }
      if user.value != Admin {
        return LevelsForbidden;
      }
      if levels.None? {
        return LevelsRejected(NotAnArray);
      }
      var input := levels.value;
      var err := CheckEachLevel(input);
      if err.Some? {
        return LevelsRejected(err.value);
      }
      var keys := NameKeys(input);
      var repeats := Repeats(keys);
      if |repeats| > 0 {
        return LevelsRejected(DuplicateNames(Distinct(repeats)));
      }
      var sorted := SortByMin(input);
      err := CheckRanges(sorted);
      if err.Some? {
        return LevelsRejected(err.value);
      }
      var rows := LevelRows(sorted);
      if rows.None? {
        return LevelsFailed;
      }
      AcceptedBandsDistinct(input, rows.value);
      ReplaceLevels(rows.value);
      var ids := bandIds;
      reply := LevelsSaved(Listing(rows.value, ids));
    }

    /**
     * PUT /api/tutor/feedback/templates. Only an ADMIN may replace the
     * templates; the levels are looked up in the band index as it is before
     * the transaction, and a rejected request leaves the store as it was.
     */
    method PutTemplates(user: Option<Role>, templates: Option<seq<TemplateInput>>) returns (reply: TemplatesReply)
      requires Valid()
      modifies this
      ensures Valid()
      ensures reply.TemplatesUnauthorized? <==> user.None?
      ensures reply.TemplatesForbidden? <==> user.Some? && user.value != Admin
      ensures reply.TemplatesRejected? <==>
        user == Some(Admin) && (templates.None? || ValidateTemplates(templates.value, old(bandIds)).Some?)
      ensures reply.TemplatesRejected? ==>
        reply.error == if templates.None? then TemplatesNotAnArray else ValidateTemplates(templates.value, old(bandIds)).value
      ensures !reply.TemplatesSaved? ==> unchanged(this)
      ensures reply.TemplatesSaved? ==>
        var ts := TemplatesOf(templates.value, old(bandIds));
        && bands == old(bands) && bandIds == old(bandIds)
        && (forall id :: id in feedback ==>
              feedback[id].bandScoreId.Some? && feedback[id].bandScoreId.value in TemplateBands(ts))
        && (forall j :: 0 <= j < |ts| ==> RowOfTemplate(ts[j]) in feedback.Values)
        && FeedbackBands(feedback) == TemplateBands(ts)
        && KeptForTemplates(old(feedback), ts).Keys <= feedback.Keys
        && (forall id :: id in feedback ==>
              (id in old(feedback) && feedback[id] == old(feedback)[id]) || feedback[id] in TemplateRows(ts))
    {
      if user.None? {
        return TemplatesUnauthorized;
      }
      if user.value != Admin {
        return TemplatesForbidden;
      }
      if templates.None? {
        return TemplatesRejected(TemplatesNotAnArray);
      }
      var input := templates.value;
      var complete := CheckTemplates(input);
      if !complete {
        return TemplatesRejected(IncompleteTemplate);
      }
      var dups := Repeats(LevelKeys(input));
      if |dups| > 0 {
        return TemplatesRejected(DuplicateLevels(Distinct(dups)));
      }
      var unknown := Unknown(input, bandIds);
      if |unknown| > 0 {
        return TemplatesRejected(UnknownLevels(Distinct(unknown)));
      }
      var ts := TemplatesOf(input, bandIds);
      assert ValidateTemplates(input, bandIds).None?;
      AcceptedTemplatesDistinct(input, bands, bandIds);
      AcceptedTemplatesKnown(input, bands, bandIds);
      ReplaceTemplates(ts);
      reply := TemplatesSaved;
    }
  }
}
