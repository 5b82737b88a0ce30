/**
 * The upsert transaction of POST /api/questions (app/api/questions/route.js):
 * the package's pages and items are brought in line with the editor's
 * payload while keeping the ids of rows that still exist. A payload page
 * or question that names an existing row updates it; anything else is
 * created; an existing item missing from its page's payload, and an
 * existing page missing from the payload, is deleted with its media.
 *
 * The transaction is specified here as a fold over the payload, page by
 * page and, within a page, question by question; the rows the transaction
 * first loads (the package's pages and, per page, its item ids) are fixed
 * before the fold starts.
 */
module QuestionSave {
  import opened Common
  import opened Grading
  import opened Db
  import opened Content
  import opened QuestionMapping

  /** A page of the editor's payload; absent strings are "". */
  datatype FePage = FePage(id: Option<nat>, storyText: string, storyPassage: string, instructions: string,
                           questions: seq<FeQuestion>)

  /** The authoring tables the transaction reads and writes. */
  datatype Tables = Tables(pages: map<nat, PageRow>, items: map<nat, ItemRow>, media: map<nat, MediaRow>, nextId: nat)

  /** Every row id is below the id counter. */
  predicate Bounded(t: Tables)
  {
    && (forall k :: k in t.pages ==> k < t.nextId)
    && (forall k :: k in t.items ==> k < t.nextId)
    && (forall k :: k in t.media ==> k < t.nextId)
  }

  function SetOf(s: seq<nat>): set<nat>
  {
    set x | x in s
  }

  /** storyText || storyPassage || null */
  function StoryOf(p: FePage): Option<string>
  {
    if p.storyText != "" then Some(p.storyText) else if p.storyPassage != "" then Some(p.storyPassage) else None
  }

  function InstructionsOf(p: FePage): Option<string>
  {
    if p.instructions != "" then Some(p.instructions) else None
  }

  /** The columns written for the page at payload position i. */
  function PageRowOf(packageId: nat, p: FePage, i: nat): PageRow
  {
    PageRow(packageId, i + 1, StoryOf(p), InstructionsOf(p))
  }

  /** The item ids of each page, as loaded before the fold. */
  function ItemSnapshot(items: map<nat, ItemRow>, existing: set<nat>): map<nat, set<nat>>
  {
    map p | p in existing :: ItemsOfPages(items, {p})
  }

  // ---------------------------------------------------------------------
  // The fold
  // ---------------------------------------------------------------------

  /**
   * One question at position j of page pid: an update of a loaded item of
   * this page (which fails when an earlier step has deleted the row), or a
   * create (which fails for a question of no mapped type, since the row
   * would have no type). The result carries the id the question was saved
   * under.
   */
  function SaveItem(t: Tables, pid: nat, ex: set<nat>, q: FeQuestion, j: nat): Option<(Tables, nat)>
  {
    if q.id.Some? && q.id.value in ex then
      if q.id.value in t.items then
        Some((t.(items := t.items[q.id.value := ApplyPatch(Some(t.items[q.id.value]), pid, j + 1, PatchOf(q))]), q.id.value))
      else None
    else if q.qtype == Other then None
    else
      Some((t.(items := t.items[t.nextId := ApplyPatch(None, pid, j + 1, PatchOf(q))], nextId := t.nextId + 1), t.nextId))
  }

  /** The questions of one page, in payload order, with the ids they were saved under. */
  function SaveItems(t: Tables, pid: nat, ex: set<nat>, qs: seq<FeQuestion>): Option<(Tables, seq<nat>)>
    decreases |qs|
  {
    if |qs| == 0 then Some((t, []))
    else
      match SaveItems(t, pid, ex, qs[..|qs| - 1])
        case None => None
        case Some((t1, ids)) =>
          match SaveItem(t1, pid, ex, qs[|qs| - 1], |qs| - 1)
            case None => None
            case Some((t2, id)) => Some((t2, ids + [id]))
  }

  /** Whether the payload page names one of the package's loaded pages. */
  predicate Reuses(p: FePage, existing: set<nat>)
  {
    p.id.Some? && p.id.value in existing
  }

  /** The page at payload position i: its upsert, its questions, then its dropped items with their media. */
  function SavePage(t: Tables, packageId: nat, existing: set<nat>, snap: map<nat, set<nat>>, p: FePage, i: nat)
    : Option<(Tables, nat)>
  {
    var pid := if Reuses(p, existing) then p.id.value else t.nextId;
    var t1 := if Reuses(p, existing) then t.(pages := t.pages[pid := PageRowOf(packageId, p, i)])
              else t.(pages := t.pages[pid := PageRowOf(packageId, p, i)], nextId := t.nextId + 1);
    var ex := if Reuses(p, existing) && pid in snap then snap[pid] else {};
    match SaveItems(t1, pid, ex, p.questions)
      case None => None
      case Some((t2, kept)) =>
        var gone := ex - SetOf(kept);
        Some((t2.(media := DropKeys(t2.media, MediaOfItems(t2.media, gone)), items := DropKeys(t2.items, gone)), pid))
  }

  /** The pages of the payload, in order, with the ids they were saved under. */
  function SavePages(t: Tables, packageId: nat, existing: set<nat>, snap: map<nat, set<nat>>, ps: seq<FePage>)
    : Option<(Tables, seq<nat>)>
    decreases |ps|
  {
    if |ps| == 0 then Some((t, []))
    else
      match SavePages(t, packageId, existing, snap, ps[..|ps| - 1])
        case None => None
        case Some((t1, ids)) =>
          match SavePage(t1, packageId, existing, snap, ps[|ps| - 1], |ps| - 1)
            case None => None
            case Some((t2, id)) => Some((t2, ids + [id]))
  }

  /** The whole transaction: None when it aborts (and then nothing is written). */
  function SaveTransaction(t0: Tables, packageId: nat, ps: seq<FePage>): Option<Tables>
  {
    var existing := PagesOfPackage(t0.pages, packageId);
    match SavePages(t0, packageId, existing, ItemSnapshot(t0.items, existing), ps)
      case None => None
      case Some((t, kept)) =>
        var gone := existing - SetOf(kept);
        Some(Tables(DropKeys(t.pages, gone), DropKeys(t.items, ItemsOfPages(t.items, gone)),
                    DropKeys(t.media, MediaOfPages(t.media, t.items, gone)), t.nextId))
  }

  // ---------------------------------------------------------------------
  // Aborts propagate
  // ---------------------------------------------------------------------

  lemma {:induction false} SaveItemsAbortPrefix(t: Tables, pid: nat, ex: set<nat>, qs: seq<FeQuestion>, k: nat)
    requires k <= |qs| && SaveItems(t, pid, ex, qs[..k]).None?
    ensures SaveItems(t, pid, ex, qs).None?
    decreases |qs|
  {
    if k < |qs| {
      assert qs[..|qs| - 1][..k] == qs[..k];
      SaveItemsAbortPrefix(t, pid, ex, qs[..|qs| - 1], k);
    } else {
      assert qs[..k] == qs;
    }
  }

  lemma {:induction false} SavePagesAbortPrefix(t: Tables, packageId: nat, existing: set<nat>, snap: map<nat, set<nat>>,
                                                ps: seq<FePage>, k: nat)
    requires k <= |ps| && SavePages(t, packageId, existing, snap, ps[..k]).None?
    ensures SavePages(t, packageId, existing, snap, ps).None?
    decreases |ps|
  {
    if k < |ps| {
      assert ps[..|ps| - 1][..k] == ps[..k];
      SavePagesAbortPrefix(t, packageId, existing, snap, ps[..|ps| - 1], k);
    } else {
      assert ps[..k] == ps;
    }
  }

  // ---------------------------------------------------------------------
  // What a question pass touches
  // ---------------------------------------------------------------------

  /**
   * Saving a page's questions adds or rewrites item rows only: each saved
   * id is a loaded item of the page or a fresh id, every item outside the
   * page's loaded items is left as it was, and ids stay below the counter.
   */
  lemma {:induction false} SaveItemsFrame(t: Tables, pid: nat, ex: set<nat>, qs: seq<FeQuestion>)
    requires Bounded(t)
    ensures SaveItems(t, pid, ex, qs).Some? ==>
      var (t2, ids) := SaveItems(t, pid, ex, qs).value;
      && Bounded(t2) && t2.nextId >= t.nextId
      && t2.pages == t.pages && t2.media == t.media
      && |ids| == |qs|
      && (forall k :: k in ids ==> k in t2.items && (k in ex || t.nextId <= k < t2.nextId))
      && (forall k :: k in t.items && k !in ex ==> k in t2.items && t2.items[k] == t.items[k])
      && (forall k :: k in t2.items ==> k in t.items || t.nextId <= k)
    decreases |qs|
  {
    if |qs| > 0 {
      SaveItemsFrame(t, pid, ex, qs[..|qs| - 1]);
    }
  }

  /**
   * With no question id repeated, every question of the page is saved on
   * that page at its payload position, counted from 1.
   */
  lemma {:induction false} SaveItemsOrders(t: Tables, pid: nat, ex: set<nat>, qs: seq<FeQuestion>)
    requires Bounded(t) && forall k :: k in ex ==> k < t.nextId
    requires forall a, b :: 0 <= a < b < |qs| && qs[a].id.Some? && qs[a].id == qs[b].id ==> qs[a].id.value !in ex
    ensures SaveItems(t, pid, ex, qs).Some? ==>
      var (t2, ids) := SaveItems(t, pid, ex, qs).value;
      |ids| == |qs| && forall j :: 0 <= j < |ids| ==>
        ids[j] in t2.items && t2.items[ids[j]].pageId == pid && t2.items[ids[j]].itemOrder == j + 1
    decreases |qs|
  {
    var n := |qs|;
    if n > 0 && SaveItems(t, pid, ex, qs).Some? {
      SaveItemsOrders(t, pid, ex, qs[..n - 1]);
      SaveItemsFrame(t, pid, ex, qs[..n - 1]);
      var (t1, ids1) := SaveItems(t, pid, ex, qs[..n - 1]).value;
      var q := qs[n - 1];
      var (t2, id) := SaveItem(t1, pid, ex, q, n - 1).value;
      forall j | 0 <= j < n - 1
        ensures ids1[j] != id
      {
        if q.id.Some? && q.id.value in ex {
          // ids1[j] is a fresh id above every loaded one, or the id of an earlier question
          if ids1[j] in ex {
            assert ids1[j] == qs[j].id.value by {
              SaveItemsIds(t, pid, ex, qs[..n - 1]);
              assert qs[..n - 1][j] == qs[j];
            }
          }
        } else {
          assert ids1[j] < t1.nextId;
        }
      }
    }
  }

  /** One id per question, and the id counter never goes down. */
  lemma {:induction false} SaveItemsCounter(t: Tables, pid: nat, ex: set<nat>, qs: seq<FeQuestion>)
    ensures SaveItems(t, pid, ex, qs).Some? ==>
      |SaveItems(t, pid, ex, qs).value.1| == |qs| && SaveItems(t, pid, ex, qs).value.0.nextId >= t.nextId
    decreases |qs|
  {
    if |qs| > 0 {
      SaveItemsCounter(t, pid, ex, qs[..|qs| - 1]);
    }
  }

  /** The id a question was saved under is its own id when it names a loaded item, else a fresh one. */
  lemma {:induction false} SaveItemsIds(t: Tables, pid: nat, ex: set<nat>, qs: seq<FeQuestion>)
    ensures SaveItems(t, pid, ex, qs).Some? ==>
      var ids := SaveItems(t, pid, ex, qs).value.1;
      |ids| == |qs| && forall j :: 0 <= j < |qs| ==>
        && (qs[j].id.Some? && qs[j].id.value in ex ==> ids[j] == qs[j].id.value)
        && (!(qs[j].id.Some? && qs[j].id.value in ex) ==> ids[j] >= t.nextId)
    decreases |qs|
  {
    var n := |qs|;
    if n > 0 && SaveItems(t, pid, ex, qs).Some? {
      var front := qs[..n - 1];
      SaveItemsIds(t, pid, ex, front);
      SaveItemsCounter(t, pid, ex, front);
      var (t1, ids1) := SaveItems(t, pid, ex, front).value;
      var (t2, id) := SaveItem(t1, pid, ex, qs[n - 1], n - 1).value;
      var ids := ids1 + [id];
      assert SaveItems(t, pid, ex, qs).value.1 == ids;
      forall j | 0 <= j < n
        ensures qs[j].id.Some? && qs[j].id.value in ex ==> ids[j] == qs[j].id.value
        ensures !(qs[j].id.Some? && qs[j].id.value in ex) ==> ids[j] >= t.nextId
      {
        if j < n - 1 {
          assert front[j] == qs[j];
        }
      }
    }
  }


  // ---------------------------------------------------------------------
  // What a page pass touches
  // ---------------------------------------------------------------------

  /** An item that is not among the loaded items of any loaded page. */
  predicate Unloaded(k: nat, snap: map<nat, set<nat>>)
  {
    forall q :: q in snap ==> k !in snap[q]
  }

  /**
   * The way the tables may change while pages are saved: ids stay below
   * the counter, items not loaded with a page keep their row, every new
   * item id is fresh, and media are only ever removed.
   */
  predicate Grows(t: Tables, t2: Tables, snap: map<nat, set<nat>>)
  {
    && Bounded(t2) && t2.nextId >= t.nextId
    && (forall k :: k in t.items && Unloaded(k, snap) ==> k in t2.items && t2.items[k] == t.items[k])
    && (forall k :: k in t2.items ==> k in t.items || t.nextId <= k)
    && (forall m :: m in t2.media ==> m in t.media && t2.media[m] == t.media[m])
  }

  lemma GrowsTransitive(t: Tables, t1: Tables, t2: Tables, snap: map<nat, set<nat>>)
    requires Grows(t, t1, snap) && Grows(t1, t2, snap)
    ensures Grows(t, t2, snap)
  {
  }

  /**
   * Saving one page writes its own row, rewrites or adds items under fresh
   * or loaded ids, and leaves every other page row as it was.
   */
  lemma SavePageFrame(t: Tables, packageId: nat, existing: set<nat>, snap: map<nat, set<nat>>, p: FePage, i: nat)
    requires Bounded(t) && forall k :: k in existing ==> k < t.nextId
    ensures SavePage(t, packageId, existing, snap, p, i).Some? ==>
      var (t2, pid) := SavePage(t, packageId, existing, snap, p, i).value;
      && Grows(t, t2, snap)
      && pid in t2.pages && t2.pages[pid] == PageRowOf(packageId, p, i)
      && (Reuses(p, existing) ==> pid == p.id.value)
      && (!Reuses(p, existing) ==> t.nextId <= pid < t2.nextId)
      && (forall k :: k in t.pages && k != pid ==> k in t2.pages && t2.pages[k] == t.pages[k])
  {
    var pid: nat := if Reuses(p, existing) then p.id.value else t.nextId;
    var t1 := if Reuses(p, existing) then t.(pages := t.pages[pid := PageRowOf(packageId, p, i)])
              else t.(pages := t.pages[pid := PageRowOf(packageId, p, i)], nextId := t.nextId + 1);
    var ex := if Reuses(p, existing) && pid in snap then snap[pid] else {};
    assert Bounded(t1);
    SaveItemsFrame(t1, pid, ex, p.questions);
    var saved := SaveItems(t1, pid, ex, p.questions);
    match saved
    case None =>
    case Some((t2, kept)) =>
      var gone := ex - SetOf(kept);
      var t3 := t2.(media := DropKeys(t2.media, MediaOfItems(t2.media, gone)), items := DropKeys(t2.items, gone));
      SavePageIs(t, packageId, existing, snap, p, i, pid, t1, ex, t2, kept);
      assert forall k :: k in t.items && Unloaded(k, snap) ==> k !in ex;
      DropFrame(t, t1, t2, snap, ex, gone);
  }

  /** The result of SavePage, given the result of saving its questions. */
  lemma SavePageIs(t: Tables, packageId: nat, existing: set<nat>, snap: map<nat, set<nat>>, p: FePage, i: nat,
                   pid: nat, t1: Tables, ex: set<nat>, t2: Tables, kept: seq<nat>)
    requires pid == if Reuses(p, existing) then p.id.value else t.nextId
    requires t1 == if Reuses(p, existing) then t.(pages := t.pages[pid := PageRowOf(packageId, p, i)])
                   else t.(pages := t.pages[pid := PageRowOf(packageId, p, i)], nextId := t.nextId + 1)
    requires ex == if Reuses(p, existing) && pid in snap then snap[pid] else {}
    requires SaveItems(t1, pid, ex, p.questions) == Some((t2, kept))
    ensures var gone := ex - SetOf(kept);
      SavePage(t, packageId, existing, snap, p, i)
      == Some((t2.(media := DropKeys(t2.media, MediaOfItems(t2.media, gone)), items := DropKeys(t2.items, gone)), pid))
  {
  }

  /** Dropping the unkept items of a page after saving its questions keeps the tables growing. */
  lemma DropFrame(t: Tables, t1: Tables, t2: Tables, snap: map<nat, set<nat>>, ex: set<nat>, gone: set<nat>)
    requires Bounded(t2) && t2.nextId >= t1.nextId >= t.nextId
    requires t2.media == t1.media == t.media && t1.items == t.items
    requires forall k :: k in t.items && Unloaded(k, snap) ==> k !in ex
    requires gone <= ex
    requires forall k :: k in t1.items && k !in ex ==> k in t2.items && t2.items[k] == t1.items[k]
    requires forall k :: k in t2.items ==> k in t1.items || t1.nextId <= k
    ensures Grows(t, t2.(media := DropKeys(t2.media, MediaOfItems(t2.media, gone)), items := DropKeys(t2.items, gone)), snap)
  {
  }

  /** The ids the pages of the payload were saved under, and the tables growing along the way. */
  lemma {:induction false} SavePagesFrame(t: Tables, packageId: nat, existing: set<nat>, snap: map<nat, set<nat>>,
                                          ps: seq<FePage>)
    requires Bounded(t) && forall k :: k in existing ==> k < t.nextId
    ensures SavePages(t, packageId, existing, snap, ps).Some? ==>
      var (t2, ids) := SavePages(t, packageId, existing, snap, ps).value;
      && Grows(t, t2, snap)
      && |ids| == |ps|
      && (forall j :: 0 <= j < |ps| && Reuses(ps[j], existing) ==> ids[j] == ps[j].id.value)
      && (forall j :: 0 <= j < |ps| && !Reuses(ps[j], existing) ==> t.nextId <= ids[j] < t2.nextId)
    decreases |ps|
  {
    var n := |ps|;
    if n > 0 && SavePages(t, packageId, existing, snap, ps).Some? {
      SavePagesFrame(t, packageId, existing, snap, ps[..n - 1]);
      var (t1, ids1) := SavePages(t, packageId, existing, snap, ps[..n - 1]).value;
      SavePageFrame(t1, packageId, existing, snap, ps[n - 1], n - 1);
      var (t2, id) := SavePage(t1, packageId, existing, snap, ps[n - 1], n - 1).value;
      GrowsTransitive(t, t1, t2, snap);
      var ids := ids1 + [id];
      forall j | 0 <= j < n
        ensures Reuses(ps[j], existing) ==> ids[j] == ps[j].id.value
        ensures !Reuses(ps[j], existing) ==> t.nextId <= ids[j] < t2.nextId
      {
        if j < n - 1 {
          assert ps[..n - 1][j] == ps[j];
        }
      }
    }
  }

  /** A page row whose id was never saved under is left as it was. */
  lemma {:induction false} SavePagesKeepsPages(t: Tables, packageId: nat, existing: set<nat>, snap: map<nat, set<nat>>,
                                               ps: seq<FePage>)
    requires Bounded(t) && forall k :: k in existing ==> k < t.nextId
    ensures SavePages(t, packageId, existing, snap, ps).Some? ==>
      var (t2, ids) := SavePages(t, packageId, existing, snap, ps).value;
      forall k :: k in t.pages && k !in ids ==> k in t2.pages && t2.pages[k] == t.pages[k]
    decreases |ps|
  {
    var n := |ps|;
    if n > 0 && SavePages(t, packageId, existing, snap, ps).Some? {
      SavePagesKeepsPages(t, packageId, existing, snap, ps[..n - 1]);
      SavePagesFrame(t, packageId, existing, snap, ps[..n - 1]);
      var (t1, ids1) := SavePages(t, packageId, existing, snap, ps[..n - 1]).value;
      SavePageFrame(t1, packageId, existing, snap, ps[n - 1], n - 1);
    }
  }

  // ---------------------------------------------------------------------
  // Properties of the transaction
  // ---------------------------------------------------------------------

  /** Every row id stays below the counter, and the counter never goes back. */
  lemma SaveTransactionBounded(t0: Tables, packageId: nat, ps: seq<FePage>)
    requires Bounded(t0)
    ensures SaveTransaction(t0, packageId, ps).Some? ==>
      Bounded(SaveTransaction(t0, packageId, ps).value) && SaveTransaction(t0, packageId, ps).value.nextId >= t0.nextId
  {
    var existing := PagesOfPackage(t0.pages, packageId);
    SavePagesFrame(t0, packageId, existing, ItemSnapshot(t0.items, existing), ps);
  }

  /** The payload's ids of loaded pages. */
  function PayloadPageIds(ps: seq<FePage>, existing: set<nat>): set<nat>
  {
    set j | 0 <= j < |ps| && Reuses(ps[j], existing) :: ps[j].id.value
  }

  /**
   * A loaded page of the package that the payload does not name is gone
   * after the save, and so are the items on it and the media attached to
   * it.
   */
  lemma SaveRemovesAbsentPages(t0: Tables, packageId: nat, ps: seq<FePage>, page: nat)
    requires Bounded(t0)
    requires page in PagesOfPackage(t0.pages, packageId) && page !in PayloadPageIds(ps, PagesOfPackage(t0.pages, packageId))
    ensures SaveTransaction(t0, packageId, ps).Some? ==>
      var t := SaveTransaction(t0, packageId, ps).value;
      && page !in t.pages
      && (forall k :: k in t.items ==> t.items[k].pageId != page)
      && (forall m :: m in t.media ==> t.media[m].owner != PageMedia(page))
  {
    var existing := PagesOfPackage(t0.pages, packageId);
    var snap := ItemSnapshot(t0.items, existing);
    if SaveTransaction(t0, packageId, ps).Some? {
      SavePagesFrame(t0, packageId, existing, snap, ps);
      var (t, kept) := SavePages(t0, packageId, existing, snap, ps).value;
      assert page !in kept by {
        forall j | 0 <= j < |kept| && Reuses(ps[j], existing)
          ensures kept[j] != page
        {
          assert ps[j].id.value in PayloadPageIds(ps, existing);
        }
      }
    }
  }

  /**
   * Pages of other packages, and items that do not sit on a page of this
   * package, keep their rows.
   */
  lemma SaveKeepsOtherPackages(t0: Tables, packageId: nat, ps: seq<FePage>)
    requires Bounded(t0)
    ensures SaveTransaction(t0, packageId, ps).Some? ==>
      var t := SaveTransaction(t0, packageId, ps).value;
      && (forall k :: k in t0.pages && t0.pages[k].packageId != packageId ==> k in t.pages && t.pages[k] == t0.pages[k])
      && (forall k :: k in t0.items && t0.items[k].pageId !in PagesOfPackage(t0.pages, packageId) ==>
            k in t.items && t.items[k] == t0.items[k])
  {
    var existing := PagesOfPackage(t0.pages, packageId);
    var snap := ItemSnapshot(t0.items, existing);
    if SaveTransaction(t0, packageId, ps).Some? {
      SavePagesFrame(t0, packageId, existing, snap, ps);
      SavePagesKeepsPages(t0, packageId, existing, snap, ps);
      var (t, kept) := SavePages(t0, packageId, existing, snap, ps).value;
      forall k | k in t0.items && t0.items[k].pageId !in existing
        ensures Unloaded(k, snap)
      {
      }
    }
  }

  /** No loaded page is named by two payload pages. */
  predicate NoPageNamedTwice(ps: seq<FePage>, existing: set<nat>)
  {
    forall a, b :: 0 <= a < b < |ps| && Reuses(ps[a], existing) && Reuses(ps[b], existing) ==> ps[a].id != ps[b].id
  }

  /**
   * With no loaded page named twice, every payload page ends up as a
   * page of the package with pageOrder equal to its position plus one.
   */
  lemma SavePageOrders(t0: Tables, packageId: nat, ps: seq<FePage>)
    requires Bounded(t0)
    requires NoPageNamedTwice(ps, PagesOfPackage(t0.pages, packageId))
    ensures SaveTransaction(t0, packageId, ps).Some? ==>
      var existing := PagesOfPackage(t0.pages, packageId);
      var t := SaveTransaction(t0, packageId, ps).value;
      var ids := SavePages(t0, packageId, existing, ItemSnapshot(t0.items, existing), ps).value.1;
      |ids| == |ps| && forall i :: 0 <= i < |ps| ==> ids[i] in t.pages && t.pages[ids[i]] == PageRowOf(packageId, ps[i], i)
  {
    var existing := PagesOfPackage(t0.pages, packageId);
    var snap := ItemSnapshot(t0.items, existing);
    if SaveTransaction(t0, packageId, ps).Some? {
      SavePagesOrdersPrefix(t0, packageId, existing, snap, ps);
    }
  }

  lemma {:induction false} SavePagesOrdersPrefix(t0: Tables, packageId: nat, existing: set<nat>, snap: map<nat, set<nat>>,
                                                 ps: seq<FePage>)
    requires Bounded(t0) && forall k :: k in existing ==> k < t0.nextId
    requires NoPageNamedTwice(ps, existing)
    ensures SavePages(t0, packageId, existing, snap, ps).Some? ==>
      var (t, ids) := SavePages(t0, packageId, existing, snap, ps).value;
      |ids| == |ps| && forall i :: 0 <= i < |ps| ==> ids[i] in t.pages && t.pages[ids[i]] == PageRowOf(packageId, ps[i], i)
    decreases |ps|
  {
    var n := |ps|;
    if n > 0 && SavePages(t0, packageId, existing, snap, ps).Some? {
      var front := ps[..n - 1];
      assert NoPageNamedTwice(front, existing) by {
        forall a, b | 0 <= a < b < |front| && Reuses(front[a], existing) && Reuses(front[b], existing)
          ensures front[a].id != front[b].id
        {
          assert front[a] == ps[a] && front[b] == ps[b];
        }
      }
      SavePagesOrdersPrefix(t0, packageId, existing, snap, front);
      SavePagesFrame(t0, packageId, existing, snap, front);
      var (t1, ids1) := SavePages(t0, packageId, existing, snap, front).value;
      SavePageFrame(t1, packageId, existing, snap, ps[n - 1], n - 1);
      var (t2, id) := SavePage(t1, packageId, existing, snap, ps[n - 1], n - 1).value;
      assert SavePages(t0, packageId, existing, snap, ps).value == (t2, ids1 + [id]);
      LastIdIsNew(existing, front, ids1, ps[n - 1], id, t0.nextId, t1.nextId) by {
        forall j | 0 <= j < |front| && Reuses(front[j], existing) && Reuses(ps[n - 1], existing)
          ensures front[j].id != ps[n - 1].id
        {
          assert front[j] == ps[j];
        }
      }
      forall i | 0 <= i < n - 1
        ensures ids1[i] in t2.pages && t2.pages[ids1[i]] == PageRowOf(packageId, ps[i], i)
      {
        assert front[i] == ps[i];
      }
    }
  }

  /** The id the last page is saved under differs from the ids of the pages before it. */
  lemma LastIdIsNew(existing: set<nat>, front: seq<FePage>, ids: seq<nat>, last: FePage, id: nat, lo: nat, hi: nat)
    requires |ids| == |front| && lo <= hi
    requires forall k :: k in existing ==> k < lo
    requires forall j :: 0 <= j < |front| && Reuses(front[j], existing) ==> ids[j] == front[j].id.value
    requires forall j :: 0 <= j < |front| && !Reuses(front[j], existing) ==> lo <= ids[j] < hi
    requires Reuses(last, existing) ==> id == last.id.value
    requires !Reuses(last, existing) ==> hi <= id
    requires forall j :: 0 <= j < |front| && Reuses(front[j], existing) && Reuses(last, existing) ==> front[j].id != last.id
    ensures forall j :: 0 <= j < |front| ==> ids[j] != id
  {
  }
}
