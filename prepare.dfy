/**
 * POST /api/test/prepare (app/api/test/prepare/route.js): before a test
 * starts, the student's test record is chosen (or created), categories
 * already completed in it are dropped, and for every remaining category a
 * published package is picked at random and its questions are counted.
 */
module Prepare {
  import opened Common
  import opened Blanks
  import opened Grading
  import opened Db

  // ---------------------------------------------------------------------
  // Question count as the prepare route computes it
  // ---------------------------------------------------------------------

  /** Only SHORT_ANSWER items count per blank here; every other item counts once. */
  function PrepareCount(item: Item): (r: nat)
    ensures r >= 1
    ensures item.itype != ShortAnswer ==> r == 1
  {
    if item.itype == ShortAnswer then (if BlankCount(item.question) > 1 then BlankCount(item.question) else 1)
    else 1
  }

  function PrepareTotal(items: seq<Item>): nat
  {
    if |items| == 0 then 0 else PrepareTotal(items[..|items| - 1]) + PrepareCount(items[|items| - 1])
  }

  /** The nested page/question loop of the route, over the items in page order. */
  method CountPreparedQuestions(items: seq<Item>) returns (totalQuestions: nat)
    ensures totalQuestions == PrepareTotal(items)
    ensures totalQuestions >= |items|
  {
    totalQuestions := 0;
    for k := 0 to |items|
      invariant totalQuestions == PrepareTotal(items[..k])
      invariant totalQuestions >= k
    {
      assert items[..k + 1][..k] == items[..k];
      var it := items[k];
      if it.itype == ShortAnswer {
        var matches := BlankCount(it.question);
        totalQuestions := totalQuestions + (if matches > 1 then matches else 1);
      } else {
        totalQuestions := totalQuestions + 1;
      }
    }
    assert items[..|items|] == items;
  }

  /** The two counts agree item by item except on MATCHING_DROPDOWN items with two or more blanks. */
  lemma PrepareCountVsGrader(item: Item)
    ensures item.itype == MatchingDropdown && BlankCount(item.question) >= 2 ==>
      PrepareCount(item) == 1 && QuestionCount(item) == BlankCount(item.question)
    ensures !(item.itype == MatchingDropdown && BlankCount(item.question) >= 2) ==>
      PrepareCount(item) == QuestionCount(item)
  {
  }

  /**
   * The total prepare announces never exceeds gradeAttempt's, and equals it
   * exactly when no matching item has two or more blanks.
   */
  lemma {:induction false} PrepareTotalVsGrader(items: seq<Item>)
    ensures PrepareTotal(items) <= TotalQuestions(items)
    ensures PrepareTotal(items) == TotalQuestions(items) <==>
      forall i :: 0 <= i < |items| ==> !(items[i].itype == MatchingDropdown && BlankCount(items[i].question) >= 2)
    decreases |items|
  {
    if |items| > 0 {
      var init, last := items[..|items| - 1], items[|items| - 1];
      PrepareTotalVsGrader(init);
      PrepareCountVsGrader(last);
      forall i | 0 <= i < |init| ensures init[i] == items[i] {
      }
    }
  }

  /** A matching item "[a] and [b]": prepare announces 1 question, gradeAttempt scores out of 2. */
  lemma MatchingCountExample()
    ensures var it := Item(1, MatchingDropdown, "[a] and [b]", None, SlotList([Single("a"), Single("b")]));
      PrepareTotal([it]) == 1 && TotalQuestions([it]) == 2
  {
    var it := Item(1, MatchingDropdown, "[a] and [b]", None, SlotList([Single("a"), Single("b")]));
    TemplateTwoBlanks();
    assert [it][..0] == [];
  }

  lemma TemplateTwoBlanks()
    ensures BlankCount("[a] and [b]") == 2
  {
    var pieces := ["", " and ", ""];
    var blanks := ["a", "b"];
    assert Fill(pieces, blanks) == "[a] and [b]";
    forall i | 0 <= i < |pieces| ensures !Contains(pieces[i], '[') {
      assert forall k :: 0 <= k < |pieces[i]| ==> pieces[i][k] != '[';
    }
    forall i | 0 <= i < |blanks| ensures !Contains(blanks[i], ']') {
      assert forall k :: 0 <= k < |blanks[i]| ==> blanks[i][k] != ']';
    }
    BlanksOfFill(pieces, blanks);
  }

  // ---------------------------------------------------------------------
  // Categories
  // ---------------------------------------------------------------------

  /** The PUBLISHED packages of a category. */
  function PublishedOf(packages: map<nat, Package>, categoryId: nat): set<nat>
  {
    set p | p in packages && packages[p].categoryId == categoryId && packages[p].status == Published
  }

  /** The categories that own at least one PUBLISHED package. */
  function PublishedCategories(categories: map<nat, Category>, packages: map<nat, Package>): set<nat>
  {
    set c | c in categories && PublishedOf(packages, c) != {}
  }

  /** The categories of the packages of the record's completed attempts. */
  function Blocked(attempts: map<nat, Attempt>, packages: map<nat, Package>, recordId: nat): set<nat>
  {
    set k | k in attempts && attempts[k].recordId == Some(recordId) && attempts[k].completedAt.Some?
                && attempts[k].packageId in packages
      :: packages[attempts[k].packageId].categoryId
  }

  /** categoryIds.filter(id => !blocked.has(id)): order and repeats are kept. */
  function Unblocked(ids: seq<nat>, blocked: set<nat>): (r: seq<nat>)
    ensures |r| <= |ids|
    ensures forall i :: 0 <= i < |r| ==> r[i] !in blocked && r[i] in ids
    ensures forall x :: x in ids && x !in blocked ==> x in r
  {
    if |ids| == 0 then []
    else Unblocked(ids[..|ids| - 1], blocked) + (if ids[|ids| - 1] in blocked then [] else [ids[|ids| - 1]])
  }

  /** The list of all categories with a published package, in the order the store returns them. */
  method ListPublishedCategories(categories: map<nat, Category>, packages: map<nat, Package>) returns (ids: seq<nat>)
    ensures forall x :: x in ids <==> x in PublishedCategories(categories, packages)
    ensures |ids| == |PublishedCategories(categories, packages)|
  {
    var rest := PublishedCategories(categories, packages);
    ids := [];
    while rest != {}
      invariant rest <= PublishedCategories(categories, packages)
      invariant forall x :: x in ids <==> x in PublishedCategories(categories, packages) && x !in rest
      invariant |ids| + |rest| == |PublishedCategories(categories, packages)|
      decreases |rest|
    {
      var c :| c in rest;
      ids := ids + [c];
      rest := rest - {c};
    }
  }

  datatype PreparedEntry = PreparedEntry(categoryId: nat, categoryName: string, packageId: nat,
                                         totalQuestions: nat, durationMinutes: int)

  datatype UnavailableEntry = UnavailableEntry(categoryId: nat, categoryName: string, reason: string)

  /** The requested categories that exist and have a published package, in request order. */
  function Available(ids: seq<nat>, categories: map<nat, Category>, packages: map<nat, Package>): (r: seq<nat>)
    ensures forall i :: 0 <= i < |r| ==> r[i] in PublishedCategories(categories, packages) && r[i] in ids
  {
    if |ids| == 0 then []
    else
      var c := ids[|ids| - 1];
      Available(ids[..|ids| - 1], categories, packages)
        + (if c in categories && PublishedOf(packages, c) != {} then [c] else [])
  }

  /** The requested categories that exist but have no published package, in request order. */
  function UnavailableOf(ids: seq<nat>, categories: map<nat, Category>, packages: map<nat, Package>)
    : (r: seq<UnavailableEntry>)
    ensures forall i :: 0 <= i < |r| ==>
      && r[i].categoryId in categories && r[i].categoryId in ids
      && PublishedOf(packages, r[i].categoryId) == {} && r[i].reason == "no_published_packages"
  {
    if |ids| == 0 then []
    else
      var c := ids[|ids| - 1];
      UnavailableOf(ids[..|ids| - 1], categories, packages)
        + (if c in categories && PublishedOf(packages, c) == {}
           then [UnavailableEntry(c, categories[c].name, "no_published_packages")] else [])
  }

  /** Every category the route was asked for is accounted for exactly once: prepared, unavailable or unknown. */
  lemma {:induction false} EveryCategoryAccounted(ids: seq<nat>, categories: map<nat, Category>, packages: map<nat, Package>)
    ensures |Available(ids, categories, packages)| + |UnavailableOf(ids, categories, packages)|
         == |ids| - |Unknown(ids, categories)|
    decreases |ids|
  {
    if |ids| > 0 {
      EveryCategoryAccounted(ids[..|ids| - 1], categories, packages);
    }
  }

  function Unknown(ids: seq<nat>, categories: map<nat, Category>): seq<nat>
  {
    if |ids| == 0 then []
    else Unknown(ids[..|ids| - 1], categories) + (if ids[|ids| - 1] in categories then [] else [ids[|ids| - 1]])
  }

  function EntryIds(es: seq<PreparedEntry>): (r: seq<nat>)
    ensures |r| == |es|
    ensures forall i :: 0 <= i < |es| ==> r[i] == es[i].categoryId
  {
    if |es| == 0 then [] else EntryIds(es[..|es| - 1]) + [es[|es| - 1].categoryId]
  }

  /** A prepared entry names the category, one of its published packages, and that package's count and duration. */
  predicate GoodEntry(e: PreparedEntry, categories: map<nat, Category>, packages: map<nat, Package>)
  {
    && e.categoryId in categories
    && e.categoryName == categories[e.categoryId].name
    && e.packageId in PublishedOf(packages, e.categoryId)
    && e.totalQuestions == PrepareTotal(packages[e.packageId].items)
    && e.durationMinutes == packages[e.packageId].durationMinutes
  }

  /**
   * The per-category loop: unknown categories are skipped, categories
   * without a published package are reported unavailable, and the others
   * get a package picked among the published ones.
   */
  method PrepareCategories(ids: seq<nat>, categories: map<nat, Category>, packages: map<nat, Package>)
    returns (prepared: seq<PreparedEntry>, unavailable: seq<UnavailableEntry>)
    ensures EntryIds(prepared) == Available(ids, categories, packages)
    ensures unavailable == UnavailableOf(ids, categories, packages)
    ensures forall i :: 0 <= i < |prepared| ==> GoodEntry(prepared[i], categories, packages)
  {
    prepared, unavailable := [], [];
    for i := 0 to |ids|
      invariant EntryIds(prepared) == Available(ids[..i], categories, packages)
      invariant unavailable == UnavailableOf(ids[..i], categories, packages)
      invariant forall j :: 0 <= j < |prepared| ==> GoodEntry(prepared[j], categories, packages)
    {
      PrepareStep(ids, i, categories, packages);
      var c := ids[i];
      if c !in categories {
        continue;
      }
      var pkgs := PublishedOf(packages, c);
      if pkgs == {} {
        unavailable := unavailable + [UnavailableEntry(c, categories[c].name, "no_published_packages")];
        continue;
      }
      var picked :| picked in pkgs;
      var total := CountPreparedQuestions(packages[picked].items);
      var e := PreparedEntry(c, categories[c].name, picked, total, packages[picked].durationMinutes);
      EntryIdsAppend(prepared, e);
      prepared := prepared + [e];
    }
    assert ids[..|ids|] == ids;
  }

  /** One more requested id extends the available and unavailable lists by at most that id. */
  lemma PrepareStep(ids: seq<nat>, i: nat, categories: map<nat, Category>, packages: map<nat, Package>)
    requires i < |ids|
    ensures var c := ids[i];
      Available(ids[..i + 1], categories, packages) == Available(ids[..i], categories, packages)
        + (if c in categories && PublishedOf(packages, c) != {} then [c] else [])
    ensures var c := ids[i];
      UnavailableOf(ids[..i + 1], categories, packages) == UnavailableOf(ids[..i], categories, packages)
        + (if c in categories && PublishedOf(packages, c) == {}
           then [UnavailableEntry(c, categories[c].name, "no_published_packages")] else [])
  {
    assert ids[..i + 1][..i] == ids[..i];
  }

  lemma EntryIdsAppend(es: seq<PreparedEntry>, e: PreparedEntry)
    ensures EntryIds(es + [e]) == EntryIds(es) + [e.categoryId]
  {
    assert (es + [e])[..|es|] == es;
  }

  // ---------------------------------------------------------------------
  // The route
  // ---------------------------------------------------------------------

  datatype PrepareReply =
    | BadRequest
    | NotAvailable(unavailable: seq<UnavailableEntry>)
    | PrepareOk(recordId: Option<nat>, categories: seq<PreparedEntry>, unavailable: seq<UnavailableEntry>)

  /**
   * The test record the route settles on: a fresh record for
   * createNewRecord, else the given record when the student owns it (an
   * unknown one gives none, with no fallback), else the student's latest.
   */
  predicate RecordChoice(records: map<nat, Record>, records0: map<nat, Record>, nextId0: nat, studentId: nat,
                         recordIdInput: Option<nat>, createNewRecord: bool, chosen: Option<nat>)
  {
    if createNewRecord then chosen == Some(nextId0) && nextId0 in records && records[nextId0].studentId == studentId
    else if recordIdInput.Some? then
      chosen == (if recordIdInput.value in RecordsOfStudent(records0, studentId) then recordIdInput else None)
    else if RecordsOfStudent(records0, studentId) == {} then chosen.None?
    else
      && chosen.Some? && chosen.value in RecordsOfStudent(records0, studentId)
      && forall j :: j in RecordsOfStudent(records0, studentId) ==> records0[j].createdAt <= records0[chosen.value].createdAt
  }

  /** The record step of the route: create, look up or pick the latest. */
  method ChooseRecord(db: Database, studentId: nat, recordIdInput: Option<nat>, createNewRecord: bool, now: Time)
    returns (chosen: Option<nat>)
    requires db.Valid()
    modifies db
    ensures db.Valid()
    ensures RecordChoice(db.records, old(db.records), old(db.nextId), studentId, recordIdInput, createNewRecord, chosen)
    ensures createNewRecord ==>
      db.records == old(db.records)[old(db.nextId) := Record(studentId, now, None, None)] && db.nextId == old(db.nextId) + 1
    ensures !createNewRecord ==> db.records == old(db.records) && db.nextId == old(db.nextId)
    ensures db.attempts == old(db.attempts) && db.sessions == old(db.sessions) && db.answers == old(db.answers)
    ensures db.packages == old(db.packages) && db.categories == old(db.categories)
  {
    chosen := None;
    if createNewRecord {
      chosen := Some(db.nextId);
      db.records := db.records[db.nextId := Record(studentId, now, None, None)];
      db.nextId := db.nextId + 1;
    } else if recordIdInput.Some? {
      if recordIdInput.value in RecordsOfStudent(db.records, studentId) {
        chosen := recordIdInput;
      }
    } else {
      var mine := RecordsOfStudent(db.records, studentId);
      if mine != {} {
        var latest := LatestRecord(db.records, mine);
        chosen := Some(latest);
      }
    }
  }

  /**
   * The route after the record step: the categories the chosen record has
   * completed are dropped from listed, leaving ids, and each of the rest
   * is prepared or reported unavailable.
   */
  method PrepareChosen(listed: seq<nat>, chosen: Option<nat>, attempts: map<nat, Attempt>,
                       packages: map<nat, Package>, categories: map<nat, Category>)
    returns (r: PrepareReply, ghost ids: seq<nat>)
    ensures ids == (if chosen.Some? then Unblocked(listed, Blocked(attempts, packages, chosen.value)) else listed)
    ensures r.NotAvailable? || r.PrepareOk?
    ensures r.NotAvailable? <==> Available(ids, categories, packages) == []
    ensures r.unavailable == UnavailableOf(ids, categories, packages)
    ensures r.PrepareOk? ==>
      && r.recordId == chosen
      && EntryIds(r.categories) == Available(ids, categories, packages)
      && r.categories != []
      && forall i :: 0 <= i < |r.categories| ==>
           && GoodEntry(r.categories[i], categories, packages)
           && r.categories[i].categoryId in listed
           && (chosen.Some? ==> r.categories[i].categoryId !in Blocked(attempts, packages, chosen.value))
  {
    var work := listed;
    if chosen.Some? {
      work := Unblocked(work, Blocked(attempts, packages, chosen.value));
    }
    ids := work;

    var prepared, unavailable := PrepareCategories(work, categories, packages);
    if |prepared| == 0 {
      return NotAvailable(unavailable), ids;
    }
    forall i | 0 <= i < |prepared|
      ensures prepared[i].categoryId in listed
      ensures chosen.Some? ==> prepared[i].categoryId !in Blocked(attempts, packages, chosen.value)
    {
      assert EntryIds(prepared)[i] == prepared[i].categoryId;
      var j :| 0 <= j < |work| && work[j] == prepared[i].categoryId;
    }
    return PrepareOk(chosen, prepared, unavailable), ids;
  }

  /**
   * categoryIds is the request's list (empty when absent), recordIdInput
   * its recordId (None when absent or empty), createNewRecord its flag and
   * now the clock. The package pick is a nondeterministic choice among the
   * category's published packages. listed is the list the route works on
   * (the request's, or every published category for a new record),
   * chosen the record it settled on and ids the list left after dropping
   * the categories that record has completed.
   */
  method PrepareTest(db: Database, studentId: nat, categoryIds: seq<nat>, recordIdInput: Option<nat>,
                     createNewRecord: bool, now: Time)
    returns (r: PrepareReply, ghost listed: seq<nat>, ghost chosen: Option<nat>, ghost ids: seq<nat>)
    requires db.Valid()
    modifies db
    ensures db.Valid()
    ensures r.BadRequest? <==>
      categoryIds == [] && (!createNewRecord || PublishedCategories(old(db.categories), old(db.packages)) == {})
    ensures categoryIds != [] ==> listed == categoryIds
    ensures categoryIds == [] && createNewRecord ==>
      && (forall x :: x in listed <==> x in PublishedCategories(db.categories, db.packages))
      && |listed| == |PublishedCategories(db.categories, db.packages)|
    ensures createNewRecord && !r.BadRequest? ==>
      && db.records == old(db.records)[old(db.nextId) := Record(studentId, now, None, None)]
      && db.nextId == old(db.nextId) + 1
    ensures !(createNewRecord && !r.BadRequest?) ==> db.records == old(db.records) && db.nextId == old(db.nextId)
    ensures !r.BadRequest? ==>
      && RecordChoice(db.records, old(db.records), old(db.nextId), studentId, recordIdInput, createNewRecord, chosen)
      && ids == (if chosen.Some? then Unblocked(listed, Blocked(db.attempts, db.packages, chosen.value)) else listed)
      && (r.NotAvailable? <==> Available(ids, db.categories, db.packages) == [])
      && r.unavailable == UnavailableOf(ids, db.categories, db.packages)
    ensures r.PrepareOk? ==>
      && r.recordId == chosen
      && EntryIds(r.categories) == Available(ids, db.categories, db.packages)
    ensures r.PrepareOk? ==>
      RecordChoice(db.records, old(db.records), old(db.nextId), studentId, recordIdInput, createNewRecord, r.recordId)
    ensures r.PrepareOk? ==> r.categories != [] && forall i :: 0 <= i < |r.categories| ==>
      && GoodEntry(r.categories[i], db.categories, db.packages)
      && (r.recordId.Some? ==> r.categories[i].categoryId !in Blocked(db.attempts, db.packages, r.recordId.value))
    ensures r.PrepareOk? && categoryIds != [] ==> forall i :: 0 <= i < |r.categories| ==> r.categories[i].categoryId in categoryIds
    ensures r.NotAvailable? ==> forall i :: 0 <= i < |r.unavailable| ==>
      PublishedOf(db.packages, r.unavailable[i].categoryId) == {}
    ensures db.attempts == old(db.attempts) && db.sessions == old(db.sessions) && db.answers == old(db.answers)
    ensures db.packages == old(db.packages) && db.categories == old(db.categories)
  {
    var work := categoryIds;
    if createNewRecord && |work| == 0 {
      work := ListPublishedCategories(db.categories, db.packages);
    }
    listed, chosen, ids := work, None, work;
    if |work| == 0 {
      return BadRequest, listed, chosen, ids;
    }

    var choice := ChooseRecord(db, studentId, recordIdInput, createNewRecord, now);
    chosen := choice;
    r, ids := PrepareChosen(work, choice, db.attempts, db.packages, db.categories);
  }
}
