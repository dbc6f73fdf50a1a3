/** The older product router: `create`, `update` and `delete` open to the ADMIN role only and
    deriving the slug from the name, a cursor-paginated `getAll`, and `getById`. Every
    procedure runs for a signed-in user only. */
module ProductApi {
  import opened Outcomes
  import opened Entities
  import opened Tables
  import opened Schemas
  import opened Store
  import opened Text
  import opened Middleware
  import opened DerivedSlugs
  import opened ProductRouter
  import opened ProductAdmin

  /** The role check of `create`, `update` and `delete`: the role the session carries must
      be exactly ADMIN, so SUPER_ADMIN and a session without a role are refused too. */
  predicate RoleIsAdmin(user: SessionUser) {
    user.role == Some(Admin)
  }

  // ----- create -----

  /** The input of `create`: stock and both flags are required here. */
  datatype ApiProductInput = ApiProductInput(
    name: string,
    description: string,
    price: int,
    salePrice: Option<int>,
    image: Option<string>,
    stock: int,
    isActive: bool,
    isFeatured: bool,
    categoryId: Option<Id>,
    sku: Option<string>,
    tags: Option<seq<string>>,
    regionCodes: Option<seq<string>>)

  /** The router's `productSchema`: non-empty name and description, positive prices and a
      stock that is not negative. */
  predicate ValidApiInput(input: ApiProductInput) {
    |input.name| >= 1 && |input.description| >= 1 && input.price > 0 &&
    (input.salePrice.Some? ==> input.salePrice.value > 0) && input.stock >= 0
  }

  /** The row `create` stores: the input, the slug derived from the name, and the creation
      time `now`. */
  function NewApiProduct(id: Id, now: int, input: ApiProductInput): Product {
    Product(id, input.name, Slugify(input.name), input.description, input.price, input.salePrice,
            input.image, [], input.stock, input.isActive, input.isFeatured, input.sku,
            input.categoryId, Or(input.tags, []), Or(input.regionCodes, []), now)
  }

  /** The checks of `create` in the order they run: the schema, the role, then the store's
      unique slug and the category foreign key. */
  function ApiCreateRejection(prods: seq<Product>, cats: seq<Category>, user: SessionUser, input: ApiProductInput): (e: Option<ErrorCode>)
    ensures e.None? ==> ValidApiInput(input) && RoleIsAdmin(user) && !HasKey(prods, ProductSlug, Slugify(input.name))
    ensures !RoleIsAdmin(user) ==> e.Some? && e.value in {BadRequest, Forbidden}
  {
    if !ValidApiInput(input) then Some(BadRequest)
    else if !RoleIsAdmin(user) then Some(Forbidden)
    else if FindFirst(prods, ProductSlug, Slugify(input.name)).Some? then Some(InternalError)
    else if input.categoryId.Some? && FindFirst(cats, CategoryId, input.categoryId.value).None? then Some(InternalError)
    else None
  }

  /** The checks of `create`, run against the tables before the write. */
  method CheckApiCreate(prods: seq<Product>, cats: seq<Category>, user: SessionUser, input: ApiProductInput)
    returns (e: Option<ErrorCode>)
    ensures e == ApiCreateRejection(prods, cats, user, input)
  {
    if !ValidApiInput(input) {
      return Some(BadRequest);
    }
    if !RoleIsAdmin(user) {
      return Some(Forbidden);
    }
    var slug := Slugify(input.name);
    if FindFirst(prods, ProductSlug, slug).Some? {
      return Some(InternalError);
    }
    if input.categoryId.Some? && FindFirst(cats, CategoryId, input.categoryId.value).None? {
      return Some(InternalError);
    }
    return None;
  }

  /** `create`: stores the product under the slug derived from its name; a derived slug
      that another product holds is the store's unique-constraint failure. */
  method Create(db: Database, user: SessionUser, now: int, input: ApiProductInput) returns (r: Result<Product>)
    requires db.Valid()
    modifies db
    ensures db.Valid()
    ensures r.Err? <==> ApiCreateRejection(old(db.products), old(db.categories), user, input).Some?
    ensures r.Err? ==> Some(r.code) == ApiCreateRejection(old(db.products), old(db.categories), user, input) && unchanged(db)
    ensures r.Ok? ==> r.value == NewApiProduct(old(db.nextId), now, input) && r.value.slug == Slugify(input.name)
    ensures r.Ok? ==> db.products == old(db.products) + [r.value] && db.nextId == old(db.nextId) + 1
    ensures db.categories == old(db.categories) && db.promotions == old(db.promotions) && db.links == old(db.links) && db.users == old(db.users)
  {
    var rejection := CheckApiCreate(db.products, db.categories, user, input);
    if rejection.Some? {
      return Err(rejection.value);
    }
    var p := NewApiProduct(db.nextId, now, input);
    ProductAdmin.AppendKeepsValid(db.categories, db.products, db.promotions, db.links, db.nextId, p);
    IdBumpKeepsValid(db.promotions, db.users, db.nextId);
    db.products := db.products + [p];
    db.nextId := db.nextId + 1;
    r := Ok(p);
  }

  // ----- update -----

  /** The input of `update`: the router's schema made partial; no field can be set to null. */
  datatype ApiPatch = ApiPatch(
    name: Patch<string>,
    description: Patch<string>,
    price: Patch<int>,
    salePrice: Patch<int>,
    image: Patch<string>,
    stock: Patch<int>,
    isActive: Patch<bool>,
    isFeatured: Patch<bool>,
    categoryId: Patch<Id>,
    sku: Patch<string>,
    tags: Patch<seq<string>>,
    regionCodes: Patch<seq<string>>)

  predicate ValidApiPatch(data: ApiPatch) {
    (data.name.Set? ==> |data.name.value| >= 1) &&
    (data.description.Set? ==> |data.description.value| >= 1) &&
    (data.price.Set? ==> data.price.value > 0) &&
    (data.salePrice.Set? ==> data.salePrice.value > 0) &&
    (data.stock.Set? ==> data.stock.value >= 0)
  }

  function Lift<T>(p: Patch<T>): Patch<Option<T>> {
    match p case Keep => Keep case Set(v) => Set(Some(v))
  }

  /** The write `update` sends: the supplied fields, plus the slug derived from the name
      when a name is supplied. */
  function AsProductPatch(data: ApiPatch): (q: ProductPatch)
    ensures q.slug.Set? <==> data.name.Set?
    ensures data.name.Set? ==> q.slug.value == Slugify(data.name.value)
  {
    ProductPatch(data.name, if data.name.Set? then Set(Slugify(data.name.value)) else Keep,
                 data.description, data.price, Lift(data.salePrice), Lift(data.image), Keep,
                 data.stock, data.isActive, data.isFeatured, Lift(data.sku), Lift(data.categoryId),
                 data.tags, data.regionCodes)
  }

  /** Renaming a product moves its slug to the one derived from the new name; without a new
      name the slug stays. */
  lemma SlugFollowsName(p: Product, data: ApiPatch)
    ensures PatchedProduct(p, AsProductPatch(data)).slug == if data.name.Set? then Slugify(data.name.value) else p.slug
    ensures PatchedProduct(p, AsProductPatch(data)).id == p.id
  {
  }

  /** The checks of `update` in the order they run: the schema, the role, NOT_FOUND for a
      missing product, then the store's unique slug and the category foreign key. */
  ghost function ApiUpdateRejection(prods: seq<Product>, cats: seq<Category>, user: SessionUser, id: Id, data: ApiPatch): Option<ErrorCode> {
    if !ValidApiPatch(data) then Some(BadRequest)
    else if !RoleIsAdmin(user) then Some(Forbidden)
    else if !HasKey(prods, ProductId, id) then Some(NotFound)
    else if data.name.Set? && SlugHeldByOther(prods, ProductId, ProductSlug, Slugify(data.name.value), Some(id)) then Some(InternalError)
    else if data.categoryId.Set? && !HasKey(cats, CategoryId, data.categoryId.value) then Some(InternalError)
    else None
  }

  method CheckApiUpdate(prods: seq<Product>, cats: seq<Category>, user: SessionUser, id: Id, data: ApiPatch)
    returns (e: Option<ErrorCode>)
    ensures e == ApiUpdateRejection(prods, cats, user, id, data)
  {
    if !ValidApiPatch(data) {
      return Some(BadRequest);
    }
    if !RoleIsAdmin(user) {
      return Some(Forbidden);
    }
    if FindFirst(prods, ProductId, id).None? {
      return Some(NotFound);
    }
    assert HasKey(prods, ProductId, id);
    if data.name.Set? {
      var slug := Slugify(data.name.value);
      var taken := ValidateSlugUniqueness(prods, ProductId, ProductSlug, slug, Some(id));
      if taken.Fail? {
        return Some(InternalError);
      }
      assert !SlugHeldByOther(prods, ProductId, ProductSlug, slug, Some(id));
    }
    if data.categoryId.Set? && FindFirst(cats, CategoryId, data.categoryId.value).None? {
      return Some(InternalError);
    }
    return None;
  }

  /** `update`: after the schema and the role check, NOT_FOUND when the product is missing;
      otherwise only that product changes, its slug following a new name. */
  method Update(db: Database, user: SessionUser, id: Id, data: ApiPatch) returns (r: Result<Product>)
    requires db.Valid()
    modifies db
    ensures db.Valid()
    ensures r.Err? ==> Some(r.code) == ApiUpdateRejection(old(db.products), old(db.categories), user, id, data)
    ensures r.Ok? ==> ApiUpdateRejection(old(db.products), old(db.categories), user, id, data) == None
    ensures r.Err? ==> unchanged(db)
    ensures r.Ok? ==> r.value.id == id && r.value in db.products && |db.products| == |old(db.products)|
    ensures r.Ok? ==> forall k :: 0 <= k < |db.products| ==>
      db.products[k] == if old(db.products[k]).id == id then PatchedProduct(old(db.products[k]), AsProductPatch(data)) else old(db.products[k])
    ensures db.nextId == old(db.nextId)
    ensures db.categories == old(db.categories) && db.promotions == old(db.promotions) && db.links == old(db.links) && db.users == old(db.users)
  {
    var rejection := CheckApiUpdate(db.products, db.categories, user, id, data);
    if rejection.Some? {
      return Err(rejection.value);
    }
    var i := FindFirst(db.products, ProductId, id).value;
    var p := PatchedProduct(db.products[i], AsProductPatch(data));
    KeyLocates(db.products, ProductId, i);
    if data.name.Keep? {
      KeyLocates(db.products, ProductSlug, i);
    }
    ProductAdmin.ReplaceKeepsValid(db.categories, db.products, db.promotions, db.links, db.nextId, i, p);
    db.products := db.products[i := p];
    assert db.products[i] == p;
    r := Ok(p);
  }

  // ----- delete -----

  /** `delete`: FORBIDDEN unless the role is ADMIN, NOT_FOUND when the product is missing,
      and an internal error when a link row still names it (the store refuses the delete);
      otherwise exactly its row is removed and returned. */
  method Delete(db: Database, user: SessionUser, id: Id) returns (r: Result<Product>)
    requires db.Valid()
    modifies db
    ensures db.Valid()
    ensures r.Err? <==> !RoleIsAdmin(user) || !HasKey(old(db.products), ProductId, id) || HasKey(old(db.links), LinkProductId, id)
    ensures r.Err? ==> unchanged(db)
    ensures r.Err? ==> r.code == (if !RoleIsAdmin(user) then Forbidden else if !HasKey(old(db.products), ProductId, id) then NotFound else InternalError)
    ensures r.Ok? ==> r.value in old(db.products) && r.value.id == id
    ensures r.Ok? ==> forall x :: x in db.products <==> x in old(db.products) && x.id != id
    ensures r.Ok? ==> |db.products| == |old(db.products)| - 1
    ensures db.nextId == old(db.nextId)
    ensures db.categories == old(db.categories) && db.promotions == old(db.promotions) && db.links == old(db.links) && db.users == old(db.users)
  {
    if !RoleIsAdmin(user) {
      return Err(Forbidden);
    }
    var found := FindFirst(db.products, ProductId, id);
    if found.None? {
      return Err(NotFound);
    }
    if FindFirst(db.links, LinkProductId, id).Some? {
      return Err(InternalError);
    }
    var i := found.value;
    var p := db.products[i];
    ghost var prods := db.products;
    KeyLocates(prods, ProductId, i);
    ProductAdmin.RemoveKeepsValid(db.categories, prods, db.promotions, db.links, db.nextId, i);
    db.products := RemoveAt(db.products, i);
    assert db.products == prods[..i] + prods[i + 1..];
    r := Ok(p);
  }

  // ----- getById -----

  /** `getById`: the product with its category, or NOT_FOUND. */
  function ApiGetById(prods: seq<Product>, cats: seq<Category>, id: Id): (r: Result<ProductWithCategory>)
    ensures r.Err? <==> !HasKey(prods, ProductId, id)
    ensures r.Err? ==> r.code == NotFound
    ensures r.Ok? ==> r.value.product in prods && r.value.product.id == id
    ensures r.Ok? ==> r.value == WithCategory(cats, r.value.product)
  {
    match FindFirst(prods, ProductId, id)
    case None => Err(NotFound)
    case Some(k) => Ok(WithCategory(cats, prods[k]))
  }

  // ----- getAll -----

  /** The input of `getAll`: an optional page size and an optional cursor, the id of the
      first product of the page. */
  datatype CursorInput = CursorInput(
    limit: Option<int>,
    cursor: Option<Id>,
    search: Option<string>,
    categoryId: Option<Id>,
    isActive: Option<bool>,
    isFeatured: Option<bool>)

  /** The filters of `getAll`, all required at once: a non-empty search term found in the
      name or the description regardless of case (tags are not searched), the category, and
      `isActive` and `isFeatured` when given; `isFeatured: false` keeps only products that
      are not featured. */
  predicate ApiSelected(p: Product, input: CursorInput) {
    (Truthy(input.search) ==> ContainsInsensitive(p.name, input.search.value) || ContainsInsensitive(p.description, input.search.value)) &&
    (input.categoryId.Some? ==> p.categoryId == input.categoryId) &&
    (input.isActive.Some? ==> p.isActive == input.isActive.value) &&
    (input.isFeatured.Some? ==> p.isFeatured == input.isFeatured.value)
  }

  /** The matching products, newest first. */
  function ApiOrdered(prods: seq<Product>, input: CursorInput): (r: seq<Product>)
    ensures multiset(r) == multiset(Filter(prods, (p: Product) => ApiSelected(p, input)))
    ensures forall p :: p in r <==> p in prods && ApiSelected(p, input)
    ensures forall i, j :: 0 <= i < j < |r| ==> r[i].createdAt >= r[j].createdAt
  {
    var matched := Filter(prods, (p: Product) => ApiSelected(p, input));
    var r := NewestFirst(matched);
    assert forall p :: p in r <==> p in matched by {
      forall p ensures p in r <==> p in matched {
        assert p in r <==> p in multiset(r);
      }
    }
    r
  }

  /** The products from the cursor on: all of them without a cursor, those from the product
      with the cursor's id when it is among them, and none when it is not. */
  function FromCursor(ordered: seq<Product>, cursor: Option<Id>): (r: seq<Product>)
    ensures cursor.None? ==> r == ordered
    ensures cursor.Some? && HasKey(ordered, ProductId, cursor.value) ==> |r| > 0 && r[0].id == cursor.value
    ensures |r| <= |ordered| && r == ordered[|ordered| - |r|..]
  {
    match cursor
    case None => ordered
    case Some(c) => match FindFirst(ordered, ProductId, c)
      case None => []
      case Some(i) => ordered[i..]
  }

  /** One page of `getAll` and the cursor of the next page, if there is one. */
  datatype CursorPage = CursorPage(items: seq<ProductWithCategory>, nextCursor: Option<Id>)

  /** `getAll`: reads up to `limit + 1` products from the cursor on; when more than `limit`
      came back, the last one is popped and its id becomes the next cursor. */
  method ApiGetAll(prods: seq<Product>, cats: seq<Category>, input: CursorInput) returns (r: Result<CursorPage>)
    ensures r.Err? <==> input.limit.Some? && !(1 <= input.limit.value <= 100)
    ensures r.Err? ==> r.code == BadRequest
    ensures r.Ok? ==> var limit := Or(input.limit, 10);
      var from := FromCursor(ApiOrdered(prods, input), input.cursor);
      |r.value.items| == (if |from| <= limit then |from| else limit) &&
      (forall k :: 0 <= k < |r.value.items| ==> r.value.items[k] == WithCategory(cats, from[k])) &&
      (r.value.nextCursor.Some? <==> |from| > limit) &&
      (r.value.nextCursor.Some? ==> r.value.nextCursor.value == from[limit].id)
  {
    if input.limit.Some? && !(1 <= input.limit.value <= 100) {
      return Err(BadRequest);
    }
    var page := TakePage(cats, FromCursor(ApiOrdered(prods, input), input.cursor), Or(input.limit, 10));
    return Ok(page);
  }

  /** The read of `getAll` and the pop that follows it: `limit + 1` products are read, and
      the one past the page, if any, names the next cursor. */
  method TakePage(cats: seq<Category>, from: seq<Product>, limit: nat) returns (page: CursorPage)
    ensures |page.items| == (if |from| <= limit then |from| else limit)
    ensures forall k :: 0 <= k < |page.items| ==> page.items[k] == WithCategory(cats, from[k])
    ensures page.nextCursor.Some? <==> |from| > limit
    ensures page.nextCursor.Some? ==> page.nextCursor.value == from[limit].id
  {
    var items := WithCategories(cats, Window(from, 0, limit + 1));
    var nextCursor: Option<Id> := None;
    if |items| > limit {
      var nextItem := items[|items| - 1];
      assert nextItem.product == from[limit];
      items := items[..|items| - 1];
      nextCursor := Some(nextItem.product.id);
    }
    return CursorPage(items, nextCursor);
  }

  /** A value occurs at most once in a sequence with unique keys. */
  lemma OccursOnce<T, K>(s: seq<T>, key: T -> K, i: nat)
    requires KeysUnique(s, key) && i < |s|
    ensures multiset(s)[s[i]] == 1
  {
    assert s == s[..i] + [s[i]] + s[i + 1..];
    forall m | 0 <= m < i ensures s[..i][m] != s[i] {
      assert s[..i][m] == s[m];
    }
    var after := s[i + 1..];
    forall m | 0 <= m < |after| ensures after[m] != s[i] {
      assert after[m] == s[i + 1 + m];
    }
  }

  /** A value at two positions is counted at least twice. */
  lemma CountedTwice<T>(s: seq<T>, i: nat, j: nat)
    requires i < j < |s| && s[i] == s[j]
    ensures multiset(s)[s[i]] >= 2
  {
    assert s == s[..j] + s[j..];
    assert s[i] == s[..j][i] && s[j] == s[j..][0];
  }

  /** A rearrangement of rows with unique keys has unique keys. */
  lemma PermutationKeysUnique<T, K>(a: seq<T>, b: seq<T>, key: T -> K)
    requires KeysUnique(a, key) && multiset(a) == multiset(b)
    ensures KeysUnique(b, key)
  {
    forall i, j | 0 <= i < j < |b| ensures key(b[i]) != key(b[j]) {
      assert b[i] in multiset(a) && b[j] in multiset(a);
      var m :| 0 <= m < |a| && a[m] == b[i];
      var n :| 0 <= n < |a| && a[n] == b[j];
      if m == n {
        OccursOnce(a, key, m);
        CountedTwice(b, i, j);
        assert false;
      }
    }
  }

  /** With unique product ids, the ordered matches have unique ids. */
  lemma OrderedIdsUnique(prods: seq<Product>, input: CursorInput)
    requires KeysUnique(prods, ProductId)
    ensures KeysUnique(ApiOrdered(prods, input), ProductId)
  {
    var keep := (p: Product) => ApiSelected(p, input);
    FilterKeysUnique(prods, keep, ProductId);
    PermutationKeysUnique(Filter(prods, keep), ApiOrdered(prods, input), ProductId);
  }

  /** Cursor paging tiles the matches: when a page reports a next cursor, the page that
      cursor opens starts with the product popped from this one and goes on from there. */
  lemma NextPageContinues(prods: seq<Product>, input: CursorInput, limit: nat)
    requires KeysUnique(prods, ProductId)
    requires |FromCursor(ApiOrdered(prods, input), input.cursor)| > limit
    ensures var from := FromCursor(ApiOrdered(prods, input), input.cursor);
      FromCursor(ApiOrdered(prods, input), Some(from[limit].id)) == from[limit..]
  {
    var ordered := ApiOrdered(prods, input);
    var from := FromCursor(ordered, input.cursor);
    OrderedIdsUnique(prods, input);
    var at := |ordered| - |from| + limit;
    assert ordered[at] == from[limit];
    KeyLocates(ordered, ProductId, at);
    assert FindFirst(ordered, ProductId, from[limit].id) == Some(at);
  }

  /** `isFeatured: false` does filter here: no featured product is listed. */
  lemma FeaturedFalseExcludesFeatured(prods: seq<Product>, input: CursorInput)
    requires input.isFeatured == Some(false)
    ensures forall p :: p in ApiOrdered(prods, input) ==> !p.isFeatured
  {
  }
}
