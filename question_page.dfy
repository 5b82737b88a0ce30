/**
 * POST /api/questions/page (app/api/questions/page/route.js): the editor
 * adds one empty page to a package, at the requested position or after
 * the package's last page.
 */
module QuestionPage {
  import opened Common
  import opened Content

  /**
   * The request body. pageOrder is None when body.pageOrder is not a
   * finite number; storyPassage and instructions are None when null or
   * missing (an empty string is kept as it is).
   */
  datatype PageRequest = PageRequest(packageId: Option<nat>, pageOrder: Option<int>,
                                     storyPassage: Option<string>, instructions: Option<string>)

  datatype PageReply = Unauthorized | Forbidden | PackageIdRequired | PackageNotFound | Created(id: nat, pageOrder: int)

  /** The pageOrder of every page. */
  function PageOrders(pages: map<nat, PageRow>): (r: map<nat, int>)
    ensures r.Keys == pages.Keys
  {
    map k | k in pages :: pages[k].pageOrder
  }

  /** A requested position is used when it is positive. */
  predicate UsesRequestedOrder(req: PageRequest)
  {
    req.pageOrder.Some? && req.pageOrder.value > 0
  }

  /** POST /api/questions/page for an authenticated user whose role is user (None when the user is gone). */
  method PostPage(store: ContentStore, user: Option<Role>, req: PageRequest) returns (reply: PageReply)
    requires store.Valid()
    modifies store
    ensures store.Valid()
    ensures user.None? ==> reply == Unauthorized
    ensures user.Some? && !IsStaff(user.value) ==> reply == Forbidden
    ensures StaffUser(user) && req.packageId.None? ==> reply == PackageIdRequired
    ensures StaffUser(user) && req.packageId.Some? && req.packageId.value !in old(store.packages) ==>
      reply == PackageNotFound
    ensures !reply.Created? ==> unchanged(store)
    ensures reply.Created? ==>
      var pkg := req.packageId.value;
      var pages := PagesOfPackage(old(store.pages), pkg);
      && StaffUser(user) && req.packageId.Some? && pkg in old(store.packages)
      && reply.id == old(store.nextId) && store.nextId == old(store.nextId) + 1
      && store.pages == old(store.pages)[reply.id := PageRow(pkg, reply.pageOrder, req.storyPassage, req.instructions)]
      && store.items == old(store.items) && store.media == old(store.media) && store.packages == old(store.packages)
      && (UsesRequestedOrder(req) ==> reply.pageOrder == req.pageOrder.value)
      && (!UsesRequestedOrder(req) && pages == {} ==> reply.pageOrder == 1)
      && (!UsesRequestedOrder(req) && pages != {} ==>
            (exists k :: k in pages && reply.pageOrder == old(store.pages)[k].pageOrder + 1)
            && forall k :: k in pages ==> old(store.pages)[k].pageOrder < reply.pageOrder)
  {
    if user.None? {
      return Unauthorized;
    }
    if !IsStaff(user.value) {
      return Forbidden;
    }
    if req.packageId.None? {
      return PackageIdRequired;
    }
    var pkg := req.packageId.value;
    if pkg !in store.packages {
      return PackageNotFound;
    }
    var order: int;
    if UsesRequestedOrder(req) {
      order := req.pageOrder.value;
    } else {
      order := NextOrder(PageOrders(store.pages), PagesOfPackage(store.pages, pkg));
    }
    var id := store.nextId;
    store.pages := store.pages[id := PageRow(pkg, order, req.storyPassage, req.instructions)];
    store.nextId := store.nextId + 1;
    reply := Created(id, order);
  }
}
