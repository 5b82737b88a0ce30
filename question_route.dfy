/**
 * POST /api/questions (app/api/questions/route.js): the editor saves a
 * package. The route checks the caller and the publish rules, answers a
 * check-only request or an unchanged save from the content hash, and
 * otherwise updates the package and runs the upsert transaction of
 * QuestionSave over the content store.
 */
module QuestionRoute {
  import opened Common
  import opened Db
  import opened Content
  import opened Transformers
  import opened QuestionMapping
  import opened QuestionSave

  function TablesOf(store: ContentStore): Tables
    reads store
  {
    Tables(store.pages, store.items, store.media, store.nextId)
  }

  /** The questions of one page, saved one after the other on a working copy. */
  method SaveQuestions(t1: Tables, pid: nat, ex: set<nat>, qs: seq<FeQuestion>) returns (r: Option<(Tables, seq<nat>)>)
    ensures r == SaveItems(t1, pid, ex, qs)
  {
    var t := t1;
    var keptItems: seq<nat> := [];
    for j := 0 to |qs|
      invariant SaveItems(t1, pid, ex, qs[..j]) == Some((t, keptItems))
    {
      assert qs[..j + 1][..j] == qs[..j];
      var q := qs[j];
      if q.id.Some? && q.id.value in ex {
        if q.id.value !in t.items {
          SaveItemsAbortPrefix(t1, pid, ex, qs, j + 1);
          return None;
        }
        t := t.(items := t.items[q.id.value := ApplyPatch(Some(t.items[q.id.value]), pid, j + 1, PatchOf(q))]);
        keptItems := keptItems + [q.id.value];
      } else {
        if q.qtype == Other {
          SaveItemsAbortPrefix(t1, pid, ex, qs, j + 1);
          return None;
        }
        keptItems := keptItems + [t.nextId];
        t := t.(items := t.items[t.nextId := ApplyPatch(None, pid, j + 1, PatchOf(q))], nextId := t.nextId + 1);
      }
    }
    assert qs[..|qs|] == qs;
    r := Some((t, keptItems));
  }

  /** One payload page: its row, its questions, then its dropped items and their media. */
  method SaveOnePage(t: Tables, packageId: nat, existing: set<nat>, snap: map<nat, set<nat>>, p: FePage, i: nat)
    returns (r: Option<(Tables, nat)>)
    ensures r == SavePage(t, packageId, existing, snap, p, i)
  {
    var pid: nat;
    var t1: Tables;
    if Reuses(p, existing) {
      pid := p.id.value;
      t1 := t.(pages := t.pages[pid := PageRowOf(packageId, p, i)]);
    } else {
      pid := t.nextId;
      t1 := t.(pages := t.pages[pid := PageRowOf(packageId, p, i)], nextId := t.nextId + 1);
    }
    var ex: set<nat> := if Reuses(p, existing) && pid in snap then snap[pid] else {};
    var saved := SaveQuestions(t1, pid, ex, p.questions);
    if saved.None? {
      return None;
    }
    var (t2, keptItems) := saved.value;
    var gone := ex - SetOf(keptItems);
    r := Some((t2.(media := DropKeys(t2.media, MediaOfItems(t2.media, gone)), items := DropKeys(t2.items, gone)), pid));
  }

  /** The pages of the payload, saved one after the other on a working copy. */
  method SaveAllPages(t0: Tables, packageId: nat, existing: set<nat>, snap: map<nat, set<nat>>, ps: seq<FePage>)
    returns (r: Option<(Tables, seq<nat>)>)
    ensures r == SavePages(t0, packageId, existing, snap, ps)
  {
    var t := t0;
    var kept: seq<nat> := [];
    for i := 0 to |ps|
      invariant SavePages(t0, packageId, existing, snap, ps[..i]) == Some((t, kept))
    {
      assert ps[..i + 1][..i] == ps[..i];
      var saved := SaveOnePage(t, packageId, existing, snap, ps[i], i);
      if saved.None? {
        SavePagesAbortPrefix(t0, packageId, existing, snap, ps, i + 1);
        return None;
      }
      t := saved.value.0;
      kept := kept + [saved.value.1];
    }
    assert ps[..|ps|] == ps;
    r := Some((t, kept));
  }

  /**
   * The upsert transaction over the content store: the pages are saved on
   * a working copy that is written back only when every step succeeded
   * (an update of an item row that an earlier page of the same payload
   * deleted aborts it); then the loaded pages the payload dropped go, with
   * their items and media.
   */
  method SaveContent(store: ContentStore, packageId: nat, ps: seq<FePage>) returns (ok: bool)
    requires store.Valid()
    modifies store
    ensures store.Valid()
    ensures store.packages == old(store.packages)
    ensures ok == SaveTransaction(old(TablesOf(store)), packageId, ps).Some?
    ensures ok ==> TablesOf(store) == SaveTransaction(old(TablesOf(store)), packageId, ps).value
    ensures !ok ==> TablesOf(store) == old(TablesOf(store))
  {
    var t0 := TablesOf(store);
    var existing := PagesOfPackage(t0.pages, packageId);
    var pages := SaveAllPages(t0, packageId, existing, ItemSnapshot(t0.items, existing), ps);
    if pages.None? {
      return false;
    }
    var (t, kept) := pages.value;
    var gone := existing - SetOf(kept);
    var saved := Tables(DropKeys(t.pages, gone), DropKeys(t.items, ItemsOfPages(t.items, gone)),
                        DropKeys(t.media, MediaOfPages(t.media, t.items, gone)), t.nextId);
    assert SaveTransaction(t0, packageId, ps) == Some(saved);
    SaveTransactionBounded(t0, packageId, ps);
    store.pages, store.items, store.media, store.nextId := saved.pages, saved.items, saved.media, saved.nextId;
    ok := true;
  }

  // ---------------------------------------------------------------------
  // What the route reads back
  // ---------------------------------------------------------------------

  /** A loaded asset list holds exactly the assets of the owner (their order is left open). */
  ghost predicate ShowsMedia(media: map<nat, MediaRow>, owner: MediaOwner, shown: seq<Media>)
  {
    && (forall m :: m in shown ==> exists k :: k in media && media[k].owner == owner && Media(media[k].kind, media[k].url) == m)
    && (forall k :: k in media && media[k].owner == owner ==> Media(media[k].kind, media[k].url) in shown)
  }

  /** The loaded items of a page: each item of the page once, in itemOrder, as stored. */
  ghost predicate ShowsItems(t: Tables, pageId: nat, qs: seq<LoadedItem>)
  {
    && (forall a, b :: 0 <= a < b < |qs| ==> qs[a].id != qs[b].id)
    && (set j | 0 <= j < |qs| :: qs[j].id) == ItemsOfPages(t.items, {pageId})
    && (forall j :: 0 <= j < |qs| ==> qs[j].id in t.items && qs[j] == Loaded(qs[j].id, t.items[qs[j].id], qs[j].media))
    && (forall j :: 0 <= j < |qs| ==> ShowsMedia(t.media, ItemMedia(qs[j].id), qs[j].media))
    && (forall a, b :: 0 <= a < b < |qs| && qs[a].id in t.items && qs[b].id in t.items ==>
          t.items[qs[a].id].itemOrder <= t.items[qs[b].id].itemOrder)
  }

  /**
   * The package's pages as the route loads them: each page of the package
   * once, in pageOrder, with its stored columns, its media and its items.
   */
  ghost predicate ShowsPackage(t: Tables, packageId: nat, current: seq<LoadedPage>)
  {
    && (forall a, b :: 0 <= a < b < |current| ==> current[a].id != current[b].id)
    && (set i | 0 <= i < |current| :: current[i].id) == PagesOfPackage(t.pages, packageId)
    && (forall i :: 0 <= i < |current| ==> current[i].id in t.pages)
    && (forall i :: 0 <= i < |current| && current[i].id in t.pages ==>
          current[i].storyPassage == t.pages[current[i].id].storyPassage && current[i].instructions == t.pages[current[i].id].instructions)
    && (forall i :: 0 <= i < |current| ==> ShowsMedia(t.media, PageMedia(current[i].id), current[i].media))
    && (forall i :: 0 <= i < |current| ==> ShowsItems(t, current[i].id, current[i].questions))
    && (forall a, b :: 0 <= a < b < |current| && current[a].id in t.pages && current[b].id in t.pages ==>
          t.pages[current[a].id].pageOrder <= t.pages[current[b].id].pageOrder)
  }

  // ---------------------------------------------------------------------
  // The request and its checks
  // ---------------------------------------------------------------------

  /**
   * The body of a save. Absent numbers are 0, an absent status is "", an
   * absent or non-string contentHash is None.
   */
  datatype SaveRequest = SaveRequest(
    pages: seq<FePage>,
    quizDuration: int,
    totalQuestions: int,
    status: string,
    packageId: Option<nat>,
    checkOnly: bool,
    contentHash: Option<string>)

  datatype SaveReply =
    | Unauthorized
    | Forbidden
    | PackageIdRequired
    | PublishWithoutQuestions
    | PublishWithoutDuration
    | PackageNotFound
    | HashRequired
    | CheckResult(changed: bool, status: PackageStatus)
    | Unchanged(status: PackageStatus, totalQuestions: int, draft: seq<DraftPage>, quizDuration: int)
    | Saved(status: PackageStatus, totalQuestions: int, quizDuration: int)
    | SaveFailed

  /** The number of questions in the payload, over all pages. */
  function PayloadQuestionCount(ps: seq<FePage>): (n: nat)
    ensures n == 0 <==> forall i :: 0 <= i < |ps| ==> ps[i].questions == []
  {
    if |ps| == 0 then 0 else PayloadQuestionCount(ps[..|ps| - 1]) + |ps[|ps| - 1].questions|
  }

  /** String(status || 'draft').toUpperCase() === 'PUBLISHED' */
  predicate Publishing(req: SaveRequest)
  {
    Upper(if req.status == "" then "draft" else req.status) == "PUBLISHED"
  }

  function DesiredStatus(req: SaveRequest): PackageStatus
  {
    if Publishing(req) then Published else Draft
  }

  /** The request's duration, status and question total are the stored ones. */
  predicate MetaSame(pkg: PackageRow, req: SaveRequest)
  {
    pkg.durationMinutes == req.quizDuration && pkg.status == DesiredStatus(req) && pkg.totalQuestions == req.totalQuestions
  }

  /** A non-empty string hash; "" counts as none. */
  function IncomingHash(req: SaveRequest): Option<string>
  {
    if req.contentHash.Some? && req.contentHash.value != "" then req.contentHash else None
  }

  /** The hash of the content as saved, where serialize stands for JSON.stringify. */
  function ServerHash(serialize: seq<SnapPage> -> seq<CodeUnit>, current: seq<LoadedPage>): string
  {
    Hex(HashOf(serialize(BuildContentSnapshot(current))) as nat)
  }

  /** The check-only verdict: changed unless both the hash and the metadata match. */
  function CheckChanged(incoming: string, server: string, metaSame: bool): (changed: bool)
    ensures !changed <==> incoming == server && metaSame
  {
    !(server == incoming && metaSame)
  }

  /**
   * A client whose serialised content differs from the stored one in a
   * single code unit is always told that its content changed.
   */
  lemma OneEditIsReported(clientJson: seq<CodeUnit>, serverJson: seq<CodeUnit>, i: nat, metaSame: bool)
    requires |clientJson| == |serverJson| && i < |clientJson| && clientJson[i] != serverJson[i]
    requires forall j :: 0 <= j < |clientJson| && j != i ==> clientJson[j] == serverJson[j]
    ensures CheckChanged(Hex(HashOf(clientJson) as nat), Hex(HashOf(serverJson) as nat), metaSame)
  {
    HashDetectsOneEdit(clientJson, serverJson, i);
    var a, b := HashOf(clientJson), HashOf(serverJson);
    if a as nat == b as nat {
      NatOfHash(a);
      NatOfHash(b);
      assert false;
    }
    HexInjective(a as nat, b as nat);
  }

  lemma NatOfHash(h: bv32)
    ensures (h as nat) as bv32 == h
  {
  }

  lemma HexInjective(a: nat, b: nat)
    requires a != b
    ensures Hex(a) != Hex(b)
  {
    HexRoundTrip(a);
    HexRoundTrip(b);
  }

  /** The package row after the metadata update: the duration is written only when positive or publishing. */
  function PackageUpdate(pkg: PackageRow, req: SaveRequest): (r: PackageRow)
    ensures r.status == DesiredStatus(req) && r.totalQuestions == pkg.totalQuestions
    ensures r.durationMinutes == pkg.durationMinutes || r.durationMinutes == req.quizDuration
    ensures req.quizDuration <= 0 && !Publishing(req) ==> r.durationMinutes == pkg.durationMinutes
    ensures Publishing(req) ==> r.durationMinutes == req.quizDuration
  {
    pkg.(status := DesiredStatus(req),
         durationMinutes := if req.quizDuration > 0 || Publishing(req) then req.quizDuration else pkg.durationMinutes)
  }

  /** The non-empty storage keys of the package's media. */
  function PackageStorageKeys(t: Tables, packageId: nat): set<string>
  {
    set m | m in MediaOfPages(t.media, t.items, PagesOfPackage(t.pages, packageId))
              && t.media[m].storageKey.Some? && t.media[m].storageKey.value != ""
      :: t.media[m].storageKey.value
  }

  /** The files to unlink: keys the package's media used before the save and no longer use. */
  function RemovedKeys(before: Tables, after: Tables, packageId: nat): (r: set<string>)
    ensures forall k :: k in r ==> k in PackageStorageKeys(before, packageId) && k !in PackageStorageKeys(after, packageId)
  {
    PackageStorageKeys(before, packageId) - PackageStorageKeys(after, packageId)
  }

  /** The caller is a tutor or an admin, the package is named, and the publish rules hold. */
  predicate Admitted(user: Option<Role>, req: SaveRequest)
  {
    && StaffUser(user)
    && req.packageId.Some?
    && (Publishing(req) ==> PayloadQuestionCount(req.pages) > 0 && req.quizDuration > 0)
  }

  // ---------------------------------------------------------------------
  // The route
  // ---------------------------------------------------------------------

  /**
   * The route's checks up to the writes: the error replies, the
   * check-only answer and the unchanged answer; None when the save goes
   * ahead.
   */
  method Screen(store: ContentStore, user: Option<Role>, req: SaveRequest, current: seq<LoadedPage>,
                serialize: seq<SnapPage> -> seq<CodeUnit>)
    returns (early: Option<SaveReply>)
    ensures user.None? ==> early == Some(Unauthorized)
    ensures user.Some? && !IsStaff(user.value) ==> early == Some(Forbidden)
    ensures StaffUser(user) && req.packageId.None? ==> early == Some(PackageIdRequired)
    ensures StaffUser(user) && req.packageId.Some? && Publishing(req) ==>
      && (PayloadQuestionCount(req.pages) == 0 ==> early == Some(PublishWithoutQuestions))
      && (PayloadQuestionCount(req.pages) > 0 && req.quizDuration <= 0 ==> early == Some(PublishWithoutDuration))
    ensures Admitted(user, req) && req.packageId.value !in store.packages ==> early == Some(PackageNotFound)
    ensures Admitted(user, req) && req.packageId.value in store.packages && req.checkOnly ==>
      early == Some(if IncomingHash(req).None? then HashRequired
                    else CheckResult(CheckChanged(IncomingHash(req).value, ServerHash(serialize, current),
                                                  MetaSame(store.packages[req.packageId.value], req)),
                                     store.packages[req.packageId.value].status))
    ensures Admitted(user, req) && req.packageId.value in store.packages && !req.checkOnly ==>
      var pkg := store.packages[req.packageId.value];
      if IncomingHash(req) == Some(ServerHash(serialize, current)) && MetaSame(pkg, req)
      then early == Some(Unchanged(pkg.status, pkg.totalQuestions, TransformToDraft(current), pkg.durationMinutes))
      else early == None
  {
    if user.None? {
      return Some(Unauthorized);
    }
    if !IsStaff(user.value) {
      return Some(Forbidden);
    }
    if req.packageId.None? {
      return Some(PackageIdRequired);
    }
    var pid := req.packageId.value;
    var count := PayloadQuestionCount(req.pages);
    if Publishing(req) {
      if count == 0 {
        return Some(PublishWithoutQuestions);
      }
      if req.quizDuration <= 0 {
        return Some(PublishWithoutDuration);
      }
    }
    if pid !in store.packages {
      return Some(PackageNotFound);
    }
    var pkg := store.packages[pid];
    var incoming := IncomingHash(req);
    if req.checkOnly {
      if incoming.None? {
        return Some(HashRequired);
      }
      var serverHash := ComputeContentHash(serialize(BuildContentSnapshot(current)));
      return Some(CheckResult(CheckChanged(incoming.value, serverHash, MetaSame(pkg, req)), pkg.status));
    }
    if incoming.Some? {
      var serverHash := ComputeContentHash(serialize(BuildContentSnapshot(current)));
      if serverHash == incoming.value && MetaSame(pkg, req) {
        return Some(Unchanged(pkg.status, pkg.totalQuestions, TransformToDraft(current), pkg.durationMinutes));
      }
    }
    early := None;
  }

  /**
   * The writes of a save: the package's status and duration first (kept
   * even when the transaction then fails), the transaction, then the
   * question total.
   */
  method WriteSave(store: ContentStore, pid: nat, req: SaveRequest) returns (reply: SaveReply, removedKeys: set<string>)
    requires store.Valid() && pid in store.packages
    modifies store
    ensures store.Valid()
    ensures
      var pkg := PackageUpdate(old(store.packages[pid]), req);
      var saved := SaveTransaction(old(TablesOf(store)), pid, req.pages);
      && (saved.None? ==> && reply == SaveFailed && removedKeys == {}
                          && TablesOf(store) == old(TablesOf(store))
                          && store.packages == old(store.packages)[pid := pkg])
      && (saved.Some? ==> && reply == Saved(pkg.status, req.totalQuestions, pkg.durationMinutes)
                          && TablesOf(store) == saved.value
                          && store.packages == old(store.packages)[pid := pkg.(totalQuestions := req.totalQuestions)]
                          && removedKeys == RemovedKeys(old(TablesOf(store)), saved.value, pid))
  {
    var updated := PackageUpdate(store.packages[pid], req);
    store.packages := store.packages[pid := updated];
    var before := TablesOf(store);
    var ok := SaveContent(store, pid, req.pages);
    if !ok {
      return SaveFailed, {};
    }
    removedKeys := RemovedKeys(before, TablesOf(store), pid);
    store.packages := store.packages[pid := updated.(totalQuestions := req.totalQuestions)];
    reply := Saved(updated.status, req.totalQuestions, updated.durationMinutes);
  }

  /**
   * POST /api/questions. current is the package's content as the route
   * loads it for the hash; the deleted files' keys are returned for the
   * best-effort unlink.
   */
  method PostQuestions(store: ContentStore, user: Option<Role>, req: SaveRequest, current: seq<LoadedPage>,
                       serialize: seq<SnapPage> -> seq<CodeUnit>)
    returns (reply: SaveReply, removedKeys: set<string>)
    requires store.Valid()
    requires req.packageId.Some? ==> ShowsPackage(TablesOf(store), req.packageId.value, current)
    modifies store
    ensures store.Valid()
    ensures !Admitted(user, req) || req.packageId.value !in old(store.packages) || req.checkOnly ==>
      unchanged(store) && removedKeys == {}
    ensures user.None? ==> reply == Unauthorized
    ensures Admitted(user, req) && req.packageId.value in old(store.packages) && req.checkOnly ==>
      reply == (if IncomingHash(req).None? then HashRequired
                else CheckResult(CheckChanged(IncomingHash(req).value, ServerHash(serialize, current),
                                              MetaSame(old(store.packages[req.packageId.value]), req)),
                                 old(store.packages[req.packageId.value]).status))
    ensures Admitted(user, req) && req.packageId.value in old(store.packages) && !req.checkOnly ==>
      var pid := req.packageId.value;
      var pkg := PackageUpdate(old(store.packages[pid]), req);
      var saved := SaveTransaction(old(TablesOf(store)), pid, req.pages);
      if IncomingHash(req) == Some(ServerHash(serialize, current)) && MetaSame(old(store.packages[pid]), req) then
        && unchanged(store) && removedKeys == {}
        && reply == Unchanged(old(store.packages[pid]).status, old(store.packages[pid]).totalQuestions,
                              TransformToDraft(current), old(store.packages[pid]).durationMinutes)
      else
        && (saved.None? ==> && reply == SaveFailed && removedKeys == {}
                            && TablesOf(store) == old(TablesOf(store))
                            && store.packages == old(store.packages)[pid := pkg])
        && (saved.Some? ==> && reply == Saved(pkg.status, req.totalQuestions, pkg.durationMinutes)
                            && TablesOf(store) == saved.value
                            && store.packages == old(store.packages)[pid := pkg.(totalQuestions := req.totalQuestions)]
                            && removedKeys == RemovedKeys(old(TablesOf(store)), saved.value, pid))
    ensures reply.Saved? && reply.status == Published ==> PayloadQuestionCount(req.pages) > 0 && req.quizDuration > 0
  {
    var early := Screen(store, user, req, current, serialize);
    if early.Some? {
      return early.value, {};
    }
    reply, removedKeys := WriteSave(store, req.packageId.value, req);
  }
}
