/**
 * The question categories tutors file packages under
 * (app/api/tutor/categories): creating one with a trimmed name that no
 * existing category shares ignoring case, and listing them with the
 * number of packages in each.
 */
module Categories {
  import opened Common
  import opened Db

  /** One category as both routes report it. */
  datatype CategoryView = CategoryView(id: nat, name: string, packageCount: nat)

  datatype CreateReply =
    | CategoryCreated(category: CategoryView)
    | CreateUnauthorized
    | CreateForbidden
    | NameRequired
    | NameTaken

  datatype ListReply =
    | CategoriesListed(categories: seq<CategoryView>)
    | ListUnauthorized
    | ListForbidden

  /**
   * The name as the route accepts it: a string that is not blank. A value
   * that is absent or not a string is None.
   */
  predicate NameGiven(name: Option<string>)
  {
    name.Some? && name.value != "" && !Blank(name.value)
  }

  /** Prisma's equals with mode insensitive, on ASCII letters. */
  predicate SameIgnoringCase(a: string, b: string)
  {
    Lower(a) == Lower(b)
  }

  /** Some stored category has this name ignoring case. */
  predicate NameInUse(categories: map<nat, Category>, name: string)
  {
    exists id :: id in categories && SameIgnoringCase(categories[id].name, name)
  }

  /** No two categories share a name ignoring case. */
  predicate NamesDistinct(categories: map<nat, Category>)
  {
    forall a, b :: a in categories && b in categories && a != b ==>
      !SameIgnoringCase(categories[a].name, categories[b].name)
  }

  /** The packages filed under a category. */
  function PackageCount(packages: map<nat, Package>, id: nat): nat
  {
    |set p | p in packages && packages[p].categoryId == id|
  }

  /** The view of a stored category. */
  function ViewOf(packages: map<nat, Package>, categories: map<nat, Category>, id: nat): CategoryView
    requires id in categories
  {
    CategoryView(id, categories[id].name, PackageCount(packages, id))
  }

  /** An id above every id in use, as the table's sequence hands out. */
  method NewId(categories: map<nat, Category>) returns (id: nat)
    ensures forall k :: k in categories ==> k < id
  {
    id := 0;
    var left := categories.Keys;
    while left != {}
      invariant forall k :: k in categories && k !in left ==> k < id
      decreases left
    {
      var k :| k in left;
      if k >= id {
        id := k + 1;
      }
      left := left - {k};
    }
  }

  /** A category no package refers to has no packages. */
  lemma NewCategoryIsEmpty(packages: map<nat, Package>, categories: map<nat, Category>, id: nat)
    requires forall p :: p in packages ==> packages[p].categoryId in categories
    requires id !in categories
    ensures PackageCount(packages, id) == 0
  {
    assert (set p | p in packages && packages[p].categoryId == id) == {};
  }

  /** Adding a name no category has, ignoring case, keeps the names distinct. */
  lemma AddKeepsDistinct(categories: map<nat, Category>, id: nat, name: string)
    requires NamesDistinct(categories) && id !in categories && !NameInUse(categories, name)
    ensures NamesDistinct(categories[id := Category(name)])
  {
    var after := categories[id := Category(name)];
    forall a, b | a in after && b in after && a != b
      ensures !SameIgnoringCase(after[a].name, after[b].name)
    {
      if a == id {
        assert !SameIgnoringCase(categories[b].name, name);
      } else if b == id {
        assert !SameIgnoringCase(categories[a].name, name);
      }
    }
  }

  /** The insert of a category whose name is free, under a new id. */
  method AddCategory(db: Database, name: string) returns (id: nat)
    requires !NameInUse(db.categories, name)
    modifies db
    ensures id !in old(db.categories)
    ensures db.categories == old(db.categories)[id := Category(name)]
    ensures old(NamesDistinct(db.categories)) ==> NamesDistinct(db.categories)
    ensures db.attempts == old(db.attempts) && db.sessions == old(db.sessions) && db.answers == old(db.answers)
    ensures db.records == old(db.records) && db.packages == old(db.packages) && db.nextId == old(db.nextId)
  {
    id := NewId(db.categories);
    if NamesDistinct(db.categories) {
      AddKeepsDistinct(db.categories, id, name);
    }
    db.categories := db.categories[id := Category(name)];
  }

  /**
   * POST /api/tutor/categories. A TUTOR or ADMIN sends a name; it is stored
   * trimmed unless a category already has that name ignoring case.
   */
  method CreateCategory(db: Database, user: Option<Role>, name: Option<string>) returns (reply: CreateReply)
    modifies db
    ensures reply.CreateUnauthorized? <==> user.None?
    ensures reply.CreateForbidden? <==> user.Some? && !IsStaff(user.value)
    ensures reply.NameRequired? <==> StaffUser(user) && !NameGiven(name)
    ensures reply.NameTaken? <==>
      StaffUser(user) && NameGiven(name) && NameInUse(old(db.categories), Trim(name.value))
    ensures !reply.CategoryCreated? ==> db.categories == old(db.categories)
    ensures reply.CategoryCreated? ==>
      && reply.category.id !in old(db.categories)
      && reply.category.name == Trim(name.value)
      && reply.category.packageCount == 0
      && db.categories == old(db.categories)[reply.category.id := Category(Trim(name.value))]
    ensures old(NamesDistinct(db.categories)) ==> NamesDistinct(db.categories)
    ensures db.attempts == old(db.attempts) && db.sessions == old(db.sessions) && db.answers == old(db.answers)
    ensures db.records == old(db.records) && db.packages == old(db.packages) && db.nextId == old(db.nextId)
  {
    if user.None? {
      return CreateUnauthorized;
    }
    if !IsStaff(user.value) {
      return CreateForbidden;
    }
    if !NameGiven(name) {
      return NameRequired;
    }
    var trimmed := Trim(name.value);
    if NameInUse(db.categories, trimmed) {
      return NameTaken;
    }
    var id := AddCategory(db, trimmed);
    reply := CategoryCreated(CategoryView(id, trimmed, 0));
  }

  /**
   * GET /api/tutor/categories: every category in the order the database
   * sorts them by name, with its package count.
   */
  function ListCategories(user: Option<Role>, packages: map<nat, Package>, categories: map<nat, Category>,
                          byName: seq<nat>): (r: ListReply)
    requires forall i :: 0 <= i < |byName| ==> byName[i] in categories
    ensures r.ListUnauthorized? <==> user.None?
    ensures r.ListForbidden? <==> user.Some? && !IsStaff(user.value)
    ensures r.CategoriesListed? ==> |r.categories| == |byName|
    ensures r.CategoriesListed? ==> forall i :: 0 <= i < |byName| ==>
      r.categories[i].id == byName[i] && r.categories[i].name == categories[byName[i]].name
      && r.categories[i].packageCount == PackageCount(packages, byName[i])
  {
    if user.None? then ListUnauthorized
    else if !IsStaff(user.value) then ListForbidden
    else CategoriesListed(seq(|byName|, i requires 0 <= i < |byName| => ViewOf(packages, categories, byName[i])))
  }

  /**
   * A category just created is listed with the count it was reported with,
   * as long as every package refers to an existing category.
   */
  lemma CreatedIsListedEmpty(packages: map<nat, Package>, before: map<nat, Category>, view: CategoryView)
    requires forall p :: p in packages ==> packages[p].categoryId in before
    requires view.id !in before && view.packageCount == 0
    ensures ViewOf(packages, before[view.id := Category(view.name)], view.id) == view
  {
    NewCategoryIsEmpty(packages, before, view.id);
  }
}
