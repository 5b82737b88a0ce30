/**
 * The authoring tables of the exam backend: question packages, their pages,
 * the question items of each page and the media assets attached to a page
 * or an item. As in the test tables, every table is a map from row id to
 * row and new ids come from one counter.
 */
module Content {
  import opened Common
  import opened Grading
  import opened Db

  datatype MediaKind = Image | Audio

  /** The owner of a media asset: a page or an item. */
  datatype MediaOwner = PageMedia(pageId: nat) | ItemMedia(itemId: nat)

  datatype MediaRow = MediaRow(owner: MediaOwner, kind: MediaKind, url: string, storageKey: Option<string>)

  /**
   * One element of a stored choicesJson array: a bare string, an object
   * (its key and its text, "" when the text is missing), or null.
   */
  datatype ChoiceJson = ChoiceString(s: string) | ChoiceObject(key: Option<string>, text: string) | ChoiceNull

  datatype PackageRow = PackageRow(status: PackageStatus, durationMinutes: int, totalQuestions: int)

  datatype PageRow = PageRow(packageId: nat, pageOrder: int, storyPassage: Option<string>, instructions: Option<string>)

  /**
   * A question item. choices is None when choicesJson is not an array;
   * answerText is None for JSON null.
   */
  datatype ItemRow = ItemRow(
    pageId: nat,
    itemOrder: int,
    itype: ItemType,
    question: string,
    choices: Option<seq<ChoiceJson>>,
    correctKey: Option<string>,
    answerText: Option<seq<string>>)

  /** A media asset as it is loaded with its page or item. */
  datatype Media = Media(kind: MediaKind, url: string)

  /** An item as loaded with its page, its media included. */
  datatype LoadedItem = LoadedItem(
    id: nat,
    itype: ItemType,
    question: string,
    choices: Option<seq<ChoiceJson>>,
    correctKey: Option<string>,
    media: seq<Media>)

  /** A page as loaded for a package, its items in itemOrder. */
  datatype LoadedPage = LoadedPage(
    id: nat,
    storyPassage: Option<string>,
    instructions: Option<string>,
    media: seq<Media>,
    questions: seq<LoadedItem>)

  class ContentStore {
    var packages: map<nat, PackageRow>
    var pages: map<nat, PageRow>
    var items: map<nat, ItemRow>
    var media: map<nat, MediaRow>
    var nextId: nat

    /** Every id in use was handed out by the counter. */
    ghost predicate Valid()
      reads this
    {
      && (forall k :: k in packages ==> k < nextId)
      && (forall k :: k in pages ==> k < nextId)
      && (forall k :: k in items ==> k < nextId)
      && (forall k :: k in media ==> k < nextId)
    }

    constructor ()
      ensures Valid()
      ensures packages == map[] && pages == map[] && items == map[] && media == map[] && nextId == 0
    {
      packages, pages, items, media, nextId := map[], map[], map[], map[], 0;
    }
  }

  /** The pages of one package. */
  function PagesOfPackage(pages: map<nat, PageRow>, packageId: nat): set<nat>
  {
    set p | p in pages && pages[p].packageId == packageId
  }

  /** The items of the given pages. */
  function ItemsOfPages(items: map<nat, ItemRow>, pageIds: set<nat>): set<nat>
  {
    set k | k in items && items[k].pageId in pageIds
  }

  /** The media attached to the given pages, or to items of the given pages. */
  function MediaOfPages(media: map<nat, MediaRow>, items: map<nat, ItemRow>, pageIds: set<nat>): set<nat>
  {
    set m | m in media
              && (|| (media[m].owner.PageMedia? && media[m].owner.pageId in pageIds)
                  || (media[m].owner.ItemMedia? && media[m].owner.itemId in items
                      && items[media[m].owner.itemId].pageId in pageIds))
  }

  /** The media attached to the given items. */
  function MediaOfItems(media: map<nat, MediaRow>, itemIds: set<nat>): set<nat>
  {
    set m | m in media && media[m].owner.ItemMedia? && media[m].owner.itemId in itemIds
  }

  /**
   * The next order after the largest one among the given orders:
   * findFirst ordered descending, then (max || 0) + 1.
   */
  method NextOrder(orders: map<nat, int>, ids: set<nat>) returns (next: int)
    requires ids <= orders.Keys
    ensures ids == {} ==> next == 1
    ensures ids != {} ==> (exists k :: k in ids && next == orders[k] + 1)
                          && forall k :: k in ids ==> orders[k] < next
  {
    if ids == {} {
      return 1;
    }
    var best :| best in ids;
    var rest := ids - {best};
    while rest != {}
      invariant rest <= ids && best in ids
      invariant forall j :: j in ids && j !in rest ==> orders[j] <= orders[best]
      decreases |rest|
    {
      var j :| j in rest;
      if orders[j] > orders[best] {
        best := j;
      }
      rest := rest - {j};
    }
    next := orders[best] + 1;
  }
}
