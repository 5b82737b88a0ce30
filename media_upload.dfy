/**
 * POST /api/media/upload: a tutor attaches an image or an audio file to a
 * question page or item. The request passes a chain of checks; then the
 * file is put in the object store, the asset of the same owner and kind is
 * replaced, and a failed insert takes the uploaded object out again.
 *
 * The object store is a set of storage keys; the key and public URL it
 * hands out for the new object are parameters.
 */
module MediaUpload {
  import opened Common
  import opened Content

  /** The file part of the form: its declared type and size, when given. */
  datatype UploadFile = UploadFile(mimeType: Option<string>, size: Option<nat>)

  /** The form fields as sent; an absent field is None. */
  datatype UploadForm = UploadForm(
    file: Option<UploadFile>,
    scope: Option<string>,
    targetId: Option<nat>,
    mediaType: Option<string>)

  /** The media settings of the environment. */
  datatype MediaConfig = MediaConfig(
    allowedImageTypes: string,
    allowedAudioTypes: string,
    maxImageMb: int,
    maxAudioMb: int)

  datatype UploadError =
    | NotMultipart
    | FileRequired
    | InvalidScope
    | TargetRequired
    | NotImageOrAudio
    | UnsupportedFormat(kind: MediaKind)
    | TooLarge(kind: MediaKind)
    | TargetNotFound

  datatype UploadReply =
    | Uploaded(id: nat, asset: MediaRow)
    | UploadUnauthorized
    | UploadForbidden
    | UploadRejected(error: UploadError)
    | UploadFailed

  /** What an accepted request uploads: the kind and the owner of the asset. */
  datatype Accepted = Accepted(kind: MediaKind, owner: MediaOwner)

  datatype Checked = Pass(accepted: Accepted) | Fail(error: UploadError)

  predicate StartsWith(s: string, prefix: string)
  {
    |prefix| <= |s| && s[..|prefix|] == prefix
  }

  /** String(x || ''): an absent value reads as the empty string. */
  function OrEmpty(x: Option<string>): string
  {
    if x.Some? then x.value else ""
  }

  /** env list split on ',' with every entry trimmed and lowercased. */
  function AllowedTypes(csv: string): (r: seq<string>)
    ensures |r| == |Split(csv, ',')|
    ensures forall i :: 0 <= i < |r| ==> r[i] == Lower(Trim(Split(csv, ',')[i]))
  {
    var parts := Split(csv, ',');
    seq(|parts|, i requires 0 <= i < |parts| => Lower(Trim(parts[i])))
  }

  /**
   * The kind of the file: the mediaType override decides when it is given,
   * otherwise the mime prefix; None when it is neither image nor audio.
   */
  function KindOf(override: string, mime: string): (r: Option<MediaKind>)
    ensures override != "" ==>
      (r == Some(Image) <==> override == "IMAGE") && (r == Some(Audio) <==> override == "AUDIO")
    ensures override == "" ==>
      (r == Some(Image) <==> StartsWith(mime, "image/"))
      && (r == Some(Audio) <==> StartsWith(mime, "audio/") && !StartsWith(mime, "image/"))
  {
    var isImage := if override != "" then override == "IMAGE" else StartsWith(mime, "image/");
    var isAudio := if override != "" then override == "AUDIO" else StartsWith(mime, "audio/");
    if isImage then Some(Image) else if isAudio then Some(Audio) else None
  }

  /** The limit in bytes: megabytes times 1024 times 1024. */
  function MaxBytes(config: MediaConfig, kind: MediaKind): int
  {
    (if kind == Image then config.maxImageMb else config.maxAudioMb) * 1024 * 1024
  }

  function AllowedFor(config: MediaConfig, kind: MediaKind): seq<string>
  {
    AllowedTypes(if kind == Image then config.allowedImageTypes else config.allowedAudioTypes)
  }

  /** The owner the scope and target name. */
  function OwnerOf(scope: string, targetId: nat): MediaOwner
  {
    if scope == "page" then PageMedia(targetId) else ItemMedia(targetId)
  }

  /** The validation chain, in the order the route runs it, before anything is written. */
  function Check(contentType: Option<string>, form: UploadForm, config: MediaConfig,
                 pages: map<nat, PageRow>, items: map<nat, ItemRow>): (r: Checked)
    ensures r.Pass? ==> StartsWith(Lower(OrEmpty(contentType)), "multipart/form-data")
    ensures r.Pass? ==> form.file.Some? && form.targetId.Some?
    ensures r.Pass? ==> Lower(OrEmpty(form.scope)) in {"page", "item"}
    ensures r.Pass? ==> r.accepted.owner == OwnerOf(Lower(OrEmpty(form.scope)), form.targetId.value)
    ensures r.Pass? ==> var mime := Lower(OrEmpty(form.file.value.mimeType));
      && KindOf(Upper(OrEmpty(form.mediaType)), mime) == Some(r.accepted.kind)
      && mime in AllowedFor(config, r.accepted.kind)
    ensures r.Pass? ==>
      (if form.file.value.size.Some? then form.file.value.size.value else 0) <= MaxBytes(config, r.accepted.kind)
    ensures r.Pass? ==> match r.accepted.owner
      case PageMedia(p) => p in pages
      case ItemMedia(i) => i in items
  {
    var scope := Lower(OrEmpty(form.scope));
    var override := Upper(OrEmpty(form.mediaType));
    if !StartsWith(Lower(OrEmpty(contentType)), "multipart/form-data") then Fail(NotMultipart)
    else if form.file.None? then Fail(FileRequired)
    else if scope != "page" && scope != "item" then Fail(InvalidScope)
    else if form.targetId.None? then Fail(TargetRequired)
    else
      var file := form.file.value;
      var mime := Lower(OrEmpty(file.mimeType));
      var size := if file.size.Some? then file.size.value else 0;
      var kind := KindOf(override, mime);
      if kind.None? then Fail(NotImageOrAudio)
      else if mime !in AllowedFor(config, kind.value) then Fail(UnsupportedFormat(kind.value))
      else if size > MaxBytes(config, kind.value) then Fail(TooLarge(kind.value))
      else if scope == "page" && form.targetId.value !in pages then Fail(TargetNotFound)
      else if scope == "item" && form.targetId.value !in items then Fail(TargetNotFound)
      else Pass(Accepted(kind.value, OwnerOf(scope, form.targetId.value)))
  }

  /** At most one asset per owner and kind: the unique constraint the replace relies on. */
  predicate OneAssetPerOwnerKind(media: map<nat, MediaRow>)
  {
    forall a, b :: a in media && b in media && a != b ==>
      media[a].owner != media[b].owner || media[a].kind != media[b].kind
  }

  /** The assets of one owner and kind. */
  function AssetsOf(media: map<nat, MediaRow>, owner: MediaOwner, kind: MediaKind): set<nat>
  {
    set m | m in media && media[m].owner == owner && media[m].kind == kind
  }

  /** The same form with another file size. */
  function WithSize(form: UploadForm, size: nat): UploadForm
    requires form.file.Some?
  {
    form.(file := Some(form.file.value.(size := Some(size))))
  }

  /**
   * The size limit is inclusive: a request that passes passes again with a
   * file of exactly the limit, and is refused as too large one byte above it.
   */
  lemma SizeLimitInclusive(contentType: Option<string>, form: UploadForm, config: MediaConfig,
                           pages: map<nat, PageRow>, items: map<nat, ItemRow>)
    requires Check(contentType, form, config, pages, items).Pass?
    requires MaxBytes(config, Check(contentType, form, config, pages, items).accepted.kind) >= 0
    ensures var r := Check(contentType, form, config, pages, items);
      && Check(contentType, WithSize(form, MaxBytes(config, r.accepted.kind)), config, pages, items) == r
      && Check(contentType, WithSize(form, MaxBytes(config, r.accepted.kind) + 1), config, pages, items)
         == Fail(TooLarge(r.accepted.kind))
  {
  }

  /** The ids a change of the table took away. */
  function Deleted(before: map<nat, MediaRow>, after: map<nat, MediaRow>): set<nat>
  {
    before.Keys - after.Keys
  }

  /** Every row present before and after is the same row. */
  predicate RowsKept(before: map<nat, MediaRow>, after: map<nat, MediaRow>)
  {
    forall m :: m in before && m in after ==> after[m] == before[m]
  }

  /** Taking rows out of the table keeps the rest. */
  lemma RowsKeptByRemoval(media: map<nat, MediaRow>, gone: set<nat>)
    ensures RowsKept(media, media - gone)
  {
  }

  /** Adding a row under a new id keeps the rest. */
  lemma RowsKeptByInsert(media: map<nat, MediaRow>, id: nat, row: MediaRow)
    requires id !in media
    ensures RowsKept(media, media[id := row])
  {
  }

  lemma RowsKeptTransitive(a: map<nat, MediaRow>, b: map<nat, MediaRow>, c: map<nat, MediaRow>)
    requires RowsKept(a, b) && RowsKept(b, c) && c.Keys <= b.Keys + (c.Keys - a.Keys)
    ensures RowsKept(a, c)
  {
  }

  /** Removing one asset of an owner and kind. */
  lemma RemoveAsset(media: map<nat, MediaRow>, m: nat, owner: MediaOwner, kind: MediaKind)
    requires m in AssetsOf(media, owner, kind)
    ensures AssetsOf(media - {m}, owner, kind) == AssetsOf(media, owner, kind) - {m}
    ensures OneAssetPerOwnerKind(media) ==>
      AssetsOf(media, owner, kind) == {m} && OneAssetPerOwnerKind(media - {m})
  {
  }

  /** Inserting the asset of an owner and kind that has none. */
  lemma InsertAsset(media: map<nat, MediaRow>, id: nat, row: MediaRow)
    requires id !in media && AssetsOf(media, row.owner, row.kind) == {}
    ensures AssetsOf(media[id := row], row.owner, row.kind) == {id}
    ensures OneAssetPerOwnerKind(media) ==> OneAssetPerOwnerKind(media[id := row])
  {
    assert forall k :: k in media ==> k !in AssetsOf(media, row.owner, row.kind);
  }

  /** The object store: the keys of the stored objects. */
  class Bucket {
    var keys: set<string>

    constructor ()
      ensures keys == {}
    {
      keys := {};
    }
  }

  /**
   * The table after the replace: at most one asset of the owner and kind is
   * deleted, every other row stays, and the new row, if inserted, is the one
   * asset of its owner and kind.
   */
  lemma ReplaceOutcome(before: map<nat, MediaRow>, gone: set<nat>, row: MediaRow, added: Option<nat>,
                       after: map<nat, MediaRow>)
    requires gone <= AssetsOf(before, row.owner, row.kind)
    requires forall a, b :: a in gone && b in gone ==> a == b
    requires OneAssetPerOwnerKind(before) ==> gone == AssetsOf(before, row.owner, row.kind)
    requires added.None? ==> after == before - gone
    requires added.Some? ==> added.value !in before && after == (before - gone)[added.value := row]
    ensures forall m :: m in after ==> m in before || Some(m) == added
    ensures RowsKept(before, after)
    ensures Deleted(before, after) <= AssetsOf(before, row.owner, row.kind)
    ensures forall a, b :: a in Deleted(before, after) && b in Deleted(before, after) ==> a == b
    ensures OneAssetPerOwnerKind(before) ==>
      && OneAssetPerOwnerKind(after)
      && AssetsOf(after, row.owner, row.kind) == (if added.None? then {} else {added.value})
  {
    var mid := before - gone;
    RowsKeptByRemoval(before, gone);
    assert Deleted(before, after) == gone;
    if OneAssetPerOwnerKind(before) {
      assert AssetsOf(mid, row.owner, row.kind) == {};
      assert OneAssetPerOwnerKind(mid);
    }
    if added.Some? {
      RowsKeptByInsert(mid, added.value, row);
      RowsKeptTransitive(before, mid, after);
      if OneAssetPerOwnerKind(before) {
        InsertAsset(mid, added.value, row);
      }
    }
  }

  /**
   * The upload after the checks: the object is stored, the old asset of the
   * same owner and kind is deleted (row first, then its object, whose
   * failure is ignored), and the new row is inserted. When the insert fails
   * the new object is deleted and the old asset stays deleted. The storage
   * key handed out for the new object is fresh: no asset row holds it.
   */
  method Replace(store: ContentStore, bucket: Bucket, accepted: Accepted, newKey: string, url: string,
                 deleteFails: bool, insertFails: bool) returns (reply: UploadReply)
    requires store.Valid()
    requires forall m :: m in store.media ==> store.media[m].storageKey != Some(newKey)
    modifies store, bucket
    ensures store.Valid()
    ensures store.packages == old(store.packages) && store.pages == old(store.pages) && store.items == old(store.items)
    ensures insertFails <==> reply.UploadFailed?
    ensures !insertFails ==>
      && reply.Uploaded?
      && reply.id !in old(store.media)
      && reply.asset == MediaRow(accepted.owner, accepted.kind, url, Some(newKey))
      && reply.id in store.media && store.media[reply.id] == reply.asset
      && newKey in bucket.keys
    ensures insertFails && !deleteFails ==> newKey !in bucket.keys
    // only the assets of this owner and kind are touched, and at most one of them goes
    ensures forall m :: m in store.media ==> m in old(store.media) || (reply.Uploaded? && m == reply.id)
    ensures RowsKept(old(store.media), store.media)
    ensures Deleted(old(store.media), store.media) <= AssetsOf(old(store.media), accepted.owner, accepted.kind)
    ensures forall a, b :: a in Deleted(old(store.media), store.media) && b in Deleted(old(store.media), store.media) ==> a == b
    ensures old(OneAssetPerOwnerKind(store.media)) ==>
      && OneAssetPerOwnerKind(store.media)
      && AssetsOf(store.media, accepted.owner, accepted.kind) == (if insertFails then {} else {reply.id})
  {
    var keys := bucket.keys + {newKey};
    var media := store.media;
    var next := store.nextId;
    var row := MediaRow(accepted.owner, accepted.kind, url, Some(newKey));
    ghost var gone: set<nat> := {};
    if exists m :: m in media && media[m].owner == accepted.owner && media[m].kind == accepted.kind {
      var m :| m in media && media[m].owner == accepted.owner && media[m].kind == accepted.kind;
      var oldKey := media[m].storageKey;
      RemoveAsset(media, m, accepted.owner, accepted.kind);
      media := media - {m};
      gone := {m};
      if oldKey.Some? && !deleteFails {
        keys := keys - {oldKey.value};
      }
    } else {
      assert AssetsOf(media, accepted.owner, accepted.kind) == {};
    }
    if insertFails {
      ReplaceOutcome(store.media, gone, row, None, media);
      if !deleteFails {
        keys := keys - {newKey};
      }
      reply := UploadFailed;
    } else {
      ReplaceOutcome(store.media, gone, row, Some(next), media[next := row]);
      media := media[next := row];
      reply := Uploaded(next, row);
      next := next + 1;
    }
    Commit(store, bucket, media, next, keys);
  }

  /** Writes the new asset table, id counter and stored keys back; nothing else changes. */
  method Commit(store: ContentStore, bucket: Bucket, media: map<nat, MediaRow>, next: nat, keys: set<string>)
    requires store.Valid() && next >= store.nextId
    requires forall m :: m in media ==> m < next
    modifies store, bucket
    ensures store.Valid()
    ensures store.media == media && store.nextId == next && bucket.keys == keys
    ensures store.packages == old(store.packages) && store.pages == old(store.pages) && store.items == old(store.items)
  {
    store.media, store.nextId := media, next;
    bucket.keys := keys;
  }

  /**
   * POST /api/media/upload. A TUTOR or ADMIN uploads; a request that fails a
   * check changes nothing; one that passes replaces the asset of its owner
   * and kind.
   */
  method Upload(store: ContentStore, bucket: Bucket, user: Option<Role>, contentType: Option<string>,
                form: UploadForm, config: MediaConfig, newKey: string, url: string,
                deleteFails: bool, insertFails: bool) returns (reply: UploadReply)
    requires store.Valid()
    requires forall m :: m in store.media ==> store.media[m].storageKey != Some(newKey)
    modifies store, bucket
    ensures store.Valid()
    ensures reply.UploadUnauthorized? <==> user.None?
    ensures reply.UploadForbidden? <==> user.Some? && !IsStaff(user.value)
    ensures reply.UploadRejected? <==>
      StaffUser(user) && old(Check(contentType, form, config, store.pages, store.items)).Fail?
    ensures reply.UploadRejected? ==>
      reply.error == old(Check(contentType, form, config, store.pages, store.items)).error
    ensures reply.UploadFailed? <==>
      StaffUser(user) && old(Check(contentType, form, config, store.pages, store.items)).Pass? && insertFails
    ensures !reply.Uploaded? && !reply.UploadFailed? ==>
      store.media == old(store.media) && bucket.keys == old(bucket.keys) && store.nextId == old(store.nextId)
    ensures reply.Uploaded? ==>
      var a := old(Check(contentType, form, config, store.pages, store.items)).accepted;
      && reply.id !in old(store.media)
      && reply.asset == MediaRow(a.owner, a.kind, url, Some(newKey))
      && reply.id in store.media && store.media[reply.id] == reply.asset
    ensures store.packages == old(store.packages) && store.pages == old(store.pages) && store.items == old(store.items)
    ensures RowsKept(old(store.media), store.media)
    ensures forall m :: m in store.media ==> m in old(store.media) || (reply.Uploaded? && m == reply.id)
    ensures old(OneAssetPerOwnerKind(store.media)) ==> OneAssetPerOwnerKind(store.media)
  {
    if user.None? {
      return UploadUnauthorized;
    }
    if !IsStaff(user.value) {
      return UploadForbidden;
    }
    var checked := Check(contentType, form, config, store.pages, store.items);
    if checked.Fail? {
      return UploadRejected(checked.error);
    }
    reply := Replace(store, bucket, checked.accepted, newKey, url, deleteFails, insertFails);
  }
}
