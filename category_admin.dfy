/** The admin-only category procedures `create`, `update` and `delete`, which keep slugs
    unique, parents present and the hierarchy free of cycles. */
module CategoryAdmin {
  import opened Outcomes
  import opened Entities
  import opened Tables
  import opened Schemas
  import opened Store
  import opened CategoryTree
  import opened Middleware

  /** The input of `create`; an absent `isActive` defaults to true. */
  datatype CategoryInput = CategoryInput(
    name: string,
    slug: string,
    description: Option<string>,
    image: Option<string>,
    isActive: Option<bool>,
    parentId: Option<Id>)

  /** `categorySchema`: a name of two or more characters and a well-formed slug. */
  predicate ValidCategoryInput(input: CategoryInput) {
    |input.name| >= 2 && ValidSlug(input.slug)
  }

  /** The input of `update` as the caller sends it (`categorySchema.partial()`), where
      `image` and `parentId` may also be set to null. */
  datatype CategoryPatch = CategoryPatch(
    name: Patch<string>,
    slug: Patch<string>,
    description: Patch<string>,
    image: Patch<Option<string>>,
    isActive: Patch<bool>,
    parentId: Patch<Option<Id>>)

  /** `categorySchema.partial()`: each field that is present satisfies the schema. */
  predicate ValidCategoryPatch(data: CategoryPatch) {
    (data.name.Set? ==> |data.name.value| >= 2) && (data.slug.Set? ==> ValidSlug(data.slug.value))
  }

  function NewCategory(id: Id, input: CategoryInput): Category {
    Category(id, input.name, input.slug, input.description, input.image,
             match input.isActive case Some(b) => b case None => true, input.parentId)
  }

  /** The row after `update`. `.partial()` still fills in `isActive`'s `.default(true)`, so
      an omitted `isActive` switches the category on. */
  function Patched(c: Category, data: CategoryPatch): Category {
    c.(name := data.name.Apply(c.name),
       slug := data.slug.Apply(c.slug),
       description := if data.description.Set? then Some(data.description.value) else c.description,
       image := data.image.Apply(c.image),
       isActive := data.isActive.Apply(true),
       parentId := data.parentId.Apply(c.parentId))
  }

  // ----- create -----

  /** The checks of `create` in the order they run, and the error the first failing one
      reports. */
  ghost function CreateRejection(cats: seq<Category>, users: seq<User>, session: Option<Session>, input: CategoryInput): Option<ErrorCode>
    requires KeysUnique(users, UserId)
  {
    if !Admits(session, users) then Some(IsAdmin(session, users).code)
    else if !ValidCategoryInput(input) then Some(BadRequest)
    else if HasKey(cats, CategorySlug, input.slug) then Some(Conflict)
    else if input.parentId.Some? && !HasKey(cats, CategoryId, input.parentId.value) then Some(NotFound)
    else None
  }

  /** Appending a category with a fresh id, a free slug and an existing parent keeps the
      tables valid. */
  lemma AppendKeepsValid(cats: seq<Category>, prods: seq<Product>, nextId: Id, c: Category)
    requires CategoriesValid(cats, nextId) && ProductsValid(prods, cats, nextId)
    requires c.id == nextId && !HasKey(cats, CategorySlug, c.slug)
    requires c.parentId.Some? ==> HasKey(cats, CategoryId, c.parentId.value)
    ensures CategoriesValid(cats + [c], nextId + 1) && ProductsValid(prods, cats + [c], nextId + 1)
  {
    var after := cats + [c];
    AddLeafKeepsAcyclic(cats, c);
    KeysAppend(cats, CategoryId, c);
    KeysAppend(cats, CategorySlug, c);
    forall k | 0 <= k < |after| && after[k].parentId.Some? ensures HasKey(after, CategoryId, after[k].parentId.value) {
      if k < |cats| {
        assert after[k] == cats[k];
      }
    }
  }

  /** `create`: after the admin guard and the schema, CONFLICT when the slug is taken and
      NOT_FOUND when the named parent does not exist; otherwise the category is appended
      with a fresh id, `isActive` defaulting to true. */
  method Create(db: Database, session: Option<Session>, input: CategoryInput) returns (r: Result<Category>)
    requires db.Valid()
    modifies db
    ensures db.Valid()
    ensures r.Err? ==> Some(r.code) == CreateRejection(old(db.categories), old(db.users), session, input)
    ensures r.Ok? ==> CreateRejection(old(db.categories), old(db.users), session, input) == None
    ensures r.Err? ==> unchanged(db)
    ensures r.Ok? ==> r.value == NewCategory(old(db.nextId), input) && r.value.isActive == (input.isActive != Some(false))
    ensures r.Ok? ==> db.categories == old(db.categories) + [r.value] && db.nextId == old(db.nextId) + 1
    ensures db.products == old(db.products) && db.promotions == old(db.promotions) && db.links == old(db.links) && db.users == old(db.users)
  {
    var guard := IsAdmin(session, db.users);
    if guard.Err? {
      return Err(guard.code);
    }
    if !ValidCategoryInput(input) {
      return Err(BadRequest);
    }
    if FindFirst(db.categories, CategorySlug, input.slug).Some? {
      return Err(Conflict);
    }
    if input.parentId.Some? && FindFirst(db.categories, CategoryId, input.parentId.value).None? {
      return Err(NotFound);
    }
    var c := NewCategory(db.nextId, input);
    AppendKeepsValid(db.categories, db.products, db.nextId, c);
    IdBumpKeepsValid(db.promotions, db.users, db.nextId);
    db.categories := db.categories + [c];
    db.nextId := db.nextId + 1;
    r := Ok(c);
  }

  // ----- update -----

  /** A changed slug that some category already holds. */
  predicate SlugChangeTaken(cats: seq<Category>, id: Id, data: CategoryPatch) {
    data.slug.Set? && HasKey(cats, CategorySlug, data.slug.value) &&
    forall k :: 0 <= k < |cats| && cats[k].id == id ==> cats[k].slug != data.slug.value
  }

  /** A new parent that is the category itself or one of its descendants. */
  ghost predicate ParentCreatesCycle(cats: seq<Category>, id: Id, data: CategoryPatch) {
    data.parentId.Set? && data.parentId.value.Some? && InSubtree(cats, id, data.parentId.value.value)
  }

  /** A new parent that does not exist. */
  predicate ParentMissing(cats: seq<Category>, data: CategoryPatch) {
    data.parentId.Set? && data.parentId.value.Some? && !HasKey(cats, CategoryId, data.parentId.value.value)
  }

  /** The checks of `update` in the order they run, and the error the first failing one
      reports; a missing new parent surfaces as the store's foreign-key failure. */
  ghost function UpdateRejection(cats: seq<Category>, users: seq<User>, session: Option<Session>, id: Id, data: CategoryPatch): Option<ErrorCode>
    requires KeysUnique(users, UserId)
  {
    if !Admits(session, users) then Some(IsAdmin(session, users).code)
    else if !ValidCategoryPatch(data) then Some(BadRequest)
    else if !HasKey(cats, CategoryId, id) then Some(NotFound)
    else if SlugChangeTaken(cats, id, data) then Some(Conflict)
    else if ParentCreatesCycle(cats, id, data) then Some(BadRequest)
    else if ParentMissing(cats, data) then Some(InternalError)
    else None
  }

  /** Replacing a category by one with the same id, a slug no other category holds and a
      parent that exists and does not lie below it keeps the tables valid. */
  lemma ReplaceKeepsValid(cats: seq<Category>, prods: seq<Product>, nextId: Id, i: nat, c: Category)
    requires CategoriesValid(cats, nextId) && ProductsValid(prods, cats, nextId)
    requires i < |cats| && c.id == cats[i].id
    requires c.slug == cats[i].slug || !HasKey(cats, CategorySlug, c.slug)
    requires c.parentId.Some? && c.parentId != cats[i].parentId ==>
      HasKey(cats, CategoryId, c.parentId.value) && !InSubtree(cats, c.id, c.parentId.value)
    ensures CategoriesValid(cats[i := c], nextId) && ProductsValid(prods, cats[i := c], nextId)
  {
    if c.parentId.Some? && c.parentId != cats[i].parentId {
      ReparentKeepsAcyclic(cats, i, c, c.parentId.value);
    } else {
      ReplaceKeepingParentKeepsAcyclic(cats, i, c);
    }
    KeysReplace(cats, CategoryId, i, c);
    KeysReplace(cats, CategorySlug, i, c);
    var after := cats[i := c];
    forall k | 0 <= k < |after| && after[k].parentId.Some? ensures HasKey(after, CategoryId, after[k].parentId.value) {
      if k != i {
        assert after[k] == cats[k];
      }
    }
  }

  /** The checks of `update`, run in order against the tables before any write. */
  method CheckUpdate(cats: seq<Category>, users: seq<User>, session: Option<Session>, id: Id, data: CategoryPatch)
    returns (e: Option<ErrorCode>)
    requires KeysUnique(users, UserId) && KeysUnique(cats, CategoryId) && Acyclic(cats)
    ensures e == UpdateRejection(cats, users, session, id, data)
  {
    var guard := IsAdmin(session, users);
    if guard.Err? {
      return Some(guard.code);
    }
    if !ValidCategoryPatch(data) {
      return Some(BadRequest);
    }
    var found := FindFirst(cats, CategoryId, id);
    if found.None? {
      return Some(NotFound);
    }
    var existing := cats[found.value];
    KeyLocates(cats, CategoryId, found.value);
    if data.slug.Set? && data.slug.value != existing.slug && FindFirst(cats, CategorySlug, data.slug.value).Some? {
      return Some(Conflict);
    }
    if data.parentId.Set? && data.parentId.value.Some? {
      var p := data.parentId.value.value;
      if p == id {
        return Some(BadRequest);
      }
      var below := IsChildCategory(cats, id, p);
      if below {
        return Some(BadRequest);
      }
      if FindFirst(cats, CategoryId, p).None? {
        return Some(InternalError);
      }
    }
    return None;
  }

  /** `update`: after the admin guard and the partial schema, NOT_FOUND when the category is
      missing, CONFLICT when a changed slug is taken, BAD_REQUEST when the new parent is the
      category itself or lies below it, and a foreign-key failure when the new parent does
      not exist; otherwise only that row changes, as `Patched` describes. */
  method Update(db: Database, session: Option<Session>, id: Id, data: CategoryPatch) returns (r: Result<Category>)
    requires db.Valid()
    modifies db
    ensures db.Valid()
    ensures r.Err? ==> Some(r.code) == UpdateRejection(old(db.categories), old(db.users), session, id, data)
    ensures r.Ok? ==> UpdateRejection(old(db.categories), old(db.users), session, id, data) == None
    ensures r.Err? ==> unchanged(db)
    ensures r.Ok? ==> r.value.id == id && r.value in db.categories && |db.categories| == |old(db.categories)|
    ensures r.Ok? ==> forall k :: 0 <= k < |db.categories| ==>
      db.categories[k] == if old(db.categories[k]).id == id then Patched(old(db.categories[k]), data) else old(db.categories[k])
    ensures db.nextId == old(db.nextId)
    ensures db.products == old(db.products) && db.promotions == old(db.promotions) && db.links == old(db.links) && db.users == old(db.users)
  {
    var rejection := CheckUpdate(db.categories, db.users, session, id, data);
    if rejection.Some? {
      return Err(rejection.value);
    }
    var i := FindFirst(db.categories, CategoryId, id).value;
    var c := Patched(db.categories[i], data);
    KeyLocates(db.categories, CategoryId, i);
    ReplaceKeepsValid(db.categories, db.products, db.nextId, i, c);
    db.categories := db.categories[i := c];
    assert db.categories[i] == c;
    r := Ok(c);
  }

  // ----- delete -----

  predicate HasChildren(cats: seq<Category>, id: Id) {
    exists k :: 0 <= k < |cats| && cats[k].parentId == Some(id)
  }

  predicate HasProducts(prods: seq<Product>, id: Id) {
    exists k :: 0 <= k < |prods| && prods[k].categoryId == Some(id)
  }

  /** The checks of `delete` in the order they run, and the error the first failing one
      reports. */
  ghost function DeleteRejection(cats: seq<Category>, prods: seq<Product>, users: seq<User>, session: Option<Session>, id: Id): Option<ErrorCode>
    requires KeysUnique(users, UserId)
  {
    if !Admits(session, users) then Some(IsAdmin(session, users).code)
    else if !HasKey(cats, CategoryId, id) then Some(NotFound)
    else if HasChildren(cats, id) then Some(BadRequest)
    else if HasProducts(prods, id) then Some(BadRequest)
    else None
  }

  /** Removing a category that no category and no product refers to keeps the tables valid. */
  lemma RemoveKeepsValid(cats: seq<Category>, prods: seq<Product>, nextId: Id, i: nat)
    requires CategoriesValid(cats, nextId) && ProductsValid(prods, cats, nextId)
    requires i < |cats| && !HasChildren(cats, cats[i].id) && !HasProducts(prods, cats[i].id)
    ensures CategoriesValid(RemoveAt(cats, i), nextId) && ProductsValid(prods, RemoveAt(cats, i), nextId)
  {
    var after := RemoveAt(cats, i);
    assert after == cats[..i] + cats[i + 1..];
    RemoveKeepsAcyclic(cats, i);
    KeysRemove(cats, CategoryId, i);
    KeysRemove(cats, CategorySlug, i);
    forall k | 0 <= k < |after| && after[k].parentId.Some? ensures HasKey(after, CategoryId, after[k].parentId.value) {
      var j := if k < i then k else k + 1;
      assert after[k] == cats[j];
    }
  }

  /** `delete`: after the admin guard, NOT_FOUND when the category is missing and
      BAD_REQUEST when it still has child categories (active or not) or products; otherwise
      its row is removed and nothing else changes. */
  method Delete(db: Database, session: Option<Session>, id: Id) returns (r: Result<()>)
    requires db.Valid()
    modifies db
    ensures db.Valid()
    ensures r.Err? ==> Some(r.code) == DeleteRejection(old(db.categories), old(db.products), old(db.users), session, id)
    ensures r.Ok? ==> DeleteRejection(old(db.categories), old(db.products), old(db.users), session, id) == None
    ensures r.Err? ==> unchanged(db)
    ensures r.Ok? ==> forall x :: x in db.categories <==> x in old(db.categories) && x.id != id
    ensures r.Ok? ==> |db.categories| == |old(db.categories)| - 1
    ensures db.nextId == old(db.nextId)
    ensures db.products == old(db.products) && db.promotions == old(db.promotions) && db.links == old(db.links) && db.users == old(db.users)
  {
    var guard := IsAdmin(session, db.users);
    if guard.Err? {
      return Err(guard.code);
    }
    var found := FindFirst(db.categories, CategoryId, id);
    if found.None? {
      return Err(NotFound);
    }
    var i := found.value;
    if FindFirst(db.categories, (x: Category) => x.parentId, Some(id)).Some? {
      return Err(BadRequest);
    }
    if FindFirst(db.products, (p: Product) => p.categoryId, Some(id)).Some? {
      return Err(BadRequest);
    }
    ghost var cats := db.categories;
    KeyLocates(cats, CategoryId, i);
    RemoveKeepsValid(cats, db.products, db.nextId, i);
    db.categories := RemoveAt(db.categories, i);
    assert db.categories == cats[..i] + cats[i + 1..];
    r := Ok(());
  }
}
