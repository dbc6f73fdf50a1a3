/** The admin-only product procedures `create`, `update`, `updateStatus`, `updateFeatured`
    and `delete`. */
module ProductAdmin {
  import opened Outcomes
  import opened Entities
  import opened Tables
  import opened Schemas
  import opened Store
  import opened Middleware

  /** The input of `create`. Absent optional fields take the schema defaults: no stock,
      active, not featured, no tags and no region codes. */
  datatype ProductInput = ProductInput(
    name: string,
    slug: string,
    description: string,
    price: int,
    salePrice: Option<int>,
    image: Option<string>,
    images: Option<seq<string>>,
    stock: Option<int>,
    isActive: Option<bool>,
    isFeatured: Option<bool>,
    sku: Option<string>,
    categoryId: Option<Id>,
    tags: Option<seq<string>>,
    regionCodes: Option<seq<string>>)

  /** `productSchema`: a name of two or more characters, a well-formed slug, a positive
      price, a positive sale price when one is given and a stock that is not negative. */
  predicate ValidProductInput(input: ProductInput) {
    |input.name| >= 2 && ValidSlug(input.slug) && input.price > 0 &&
    (input.salePrice.Some? ==> input.salePrice.value > 0) &&
    (input.stock.Some? ==> input.stock.value >= 0)
  }

  function Or<T>(given: Option<T>, default: T): T {
    match given case Some(v) => v case None => default
  }

  /** The row `create` stores, stamped with the creation time `now`. */
  function NewProduct(id: Id, now: int, input: ProductInput): Product {
    Product(id, input.name, input.slug, input.description, input.price, input.salePrice,
            input.image, Or(input.images, []), Or(input.stock, 0), Or(input.isActive, true),
            Or(input.isFeatured, false), input.sku, input.categoryId, Or(input.tags, []),
            Or(input.regionCodes, []), now)
  }

  /** A partial update as the caller sends it (`productSchema.partial()`); the nullable
      fields may also be set to null. */
  datatype ProductPatch = ProductPatch(
    name: Patch<string>,
    slug: Patch<string>,
    description: Patch<string>,
    price: Patch<int>,
    salePrice: Patch<Option<int>>,
    image: Patch<Option<string>>,
    images: Patch<seq<string>>,
    stock: Patch<int>,
    isActive: Patch<bool>,
    isFeatured: Patch<bool>,
    sku: Patch<Option<string>>,
    categoryId: Patch<Option<Id>>,
    tags: Patch<seq<string>>,
    regionCodes: Patch<seq<string>>)

  /** Each field of the patch that is present satisfies `productSchema`. */
  predicate ValidProductPatch(data: ProductPatch) {
    (data.name.Set? ==> |data.name.value| >= 2) &&
    (data.slug.Set? ==> ValidSlug(data.slug.value)) &&
    (data.price.Set? ==> data.price.value > 0) &&
    (data.salePrice.Set? && data.salePrice.value.Some? ==> data.salePrice.value.value > 0) &&
    (data.stock.Set? ==> data.stock.value >= 0)
  }

  function PatchedProduct(p: Product, data: ProductPatch): Product {
    p.(name := data.name.Apply(p.name),
       slug := data.slug.Apply(p.slug),
       description := data.description.Apply(p.description),
       price := data.price.Apply(p.price),
       salePrice := data.salePrice.Apply(p.salePrice),
       image := data.image.Apply(p.image),
       images := data.images.Apply(p.images),
       stock := data.stock.Apply(p.stock),
       isActive := data.isActive.Apply(p.isActive),
       isFeatured := data.isFeatured.Apply(p.isFeatured),
       sku := data.sku.Apply(p.sku),
       categoryId := data.categoryId.Apply(p.categoryId),
       tags := data.tags.Apply(p.tags),
       regionCodes := data.regionCodes.Apply(p.regionCodes))
  }

  /** What `productSchema.partial()` hands the procedure: the fields that carry a
      `.default(...)` are still filled in when omitted, so an update that leaves out the
      stock, either flag, the tags or the region codes resets them. */
  function PartialDefaults(data: ProductPatch): (d: ProductPatch)
    ensures d.stock == Set(if data.stock.Set? then data.stock.value else 0)
    ensures d.isActive == Set(if data.isActive.Set? then data.isActive.value else true)
    ensures d.isFeatured == Set(if data.isFeatured.Set? then data.isFeatured.value else false)
    ensures d.tags == Set(if data.tags.Set? then data.tags.value else [])
    ensures d.regionCodes == Set(if data.regionCodes.Set? then data.regionCodes.value else [])
    ensures d.(stock := data.stock, isActive := data.isActive, isFeatured := data.isFeatured,
               tags := data.tags, regionCodes := data.regionCodes) == data
  {
    data.(stock := Set(data.stock.Apply(0)), isActive := Set(data.isActive.Apply(true)),
          isFeatured := Set(data.isFeatured.Apply(false)), tags := Set(data.tags.Apply([])),
          regionCodes := Set(data.regionCodes.Apply([])))
  }

  /** The defaults leave the schema's verdict on a patch as it was. */
  lemma PartialDefaultsValid(data: ProductPatch)
    ensures ValidProductPatch(PartialDefaults(data)) <==> ValidProductPatch(data)
  {
  }

  /** A patch never touches the id or the creation time, and a field the patch leaves out
      keeps its value. */
  lemma PatchKeepsIdentity(p: Product, data: ProductPatch)
    ensures PatchedProduct(p, data).id == p.id && PatchedProduct(p, data).createdAt == p.createdAt
    ensures data.slug.Keep? ==> PatchedProduct(p, data).slug == p.slug
    ensures data.categoryId.Keep? ==> PatchedProduct(p, data).categoryId == p.categoryId
    ensures data.isActive.Keep? ==> PatchedProduct(p, data).isActive == p.isActive
    ensures data.isFeatured.Keep? ==> PatchedProduct(p, data).isFeatured == p.isFeatured
    ensures data.name.Keep? ==> PatchedProduct(p, data).name == p.name
    ensures data.description.Keep? ==> PatchedProduct(p, data).description == p.description
    ensures data.price.Keep? ==> PatchedProduct(p, data).price == p.price
    ensures data.salePrice.Keep? ==> PatchedProduct(p, data).salePrice == p.salePrice
    ensures data.image.Keep? ==> PatchedProduct(p, data).image == p.image
    ensures data.images.Keep? ==> PatchedProduct(p, data).images == p.images
    ensures data.stock.Keep? ==> PatchedProduct(p, data).stock == p.stock
    ensures data.sku.Keep? ==> PatchedProduct(p, data).sku == p.sku
    ensures data.tags.Keep? ==> PatchedProduct(p, data).tags == p.tags
    ensures data.regionCodes.Keep? ==> PatchedProduct(p, data).regionCodes == p.regionCodes
  {
  }

  /** Validation of a full input and of a patch agree: a create input is valid exactly when
      the patch that sets all of its fields is. */
  lemma PatchValidityMatchesInput(input: ProductInput)
    ensures ValidProductInput(input) <==> ValidProductPatch(FullPatch(input))
  {
  }

  /** The patch that sets every field of a create input. */
  function FullPatch(input: ProductInput): ProductPatch {
    ProductPatch(Set(input.name), Set(input.slug), Set(input.description), Set(input.price),
                 Set(input.salePrice), Set(input.image), Set(Or(input.images, [])),
                 match input.stock case Some(s) => Set(s) case None => Set(0),
                 Set(Or(input.isActive, true)), Set(Or(input.isFeatured, false)), Set(input.sku),
                 Set(input.categoryId), Set(Or(input.tags, [])), Set(Or(input.regionCodes, [])))
  }

  // ----- create -----

  /** The checks of `create` in the order they run, and the error the first failing one
      reports. A taken slug is the plain error `validateSlugUniqueness` throws, and a
      category that does not exist is the store's foreign-key failure. */
  ghost function CreateRejection(prods: seq<Product>, cats: seq<Category>, users: seq<User>, session: Option<Session>, input: ProductInput): Option<ErrorCode>
    requires KeysUnique(users, UserId)
  {
    if !Admits(session, users) then Some(IsAdmin(session, users).code)
    else if !ValidProductInput(input) then Some(BadRequest)
    else if HasKey(prods, ProductSlug, input.slug) then Some(InternalError)
    else if input.categoryId.Some? && !HasKey(cats, CategoryId, input.categoryId.value) then Some(InternalError)
    else None
  }

  /** Appending a product with a fresh id, a free slug and an existing category keeps the
      tables valid. */
  lemma AppendKeepsValid(cats: seq<Category>, prods: seq<Product>, promos: seq<Promotion>, links: seq<ProductPromotion>, nextId: Id, p: Product)
    requires CategoriesValid(cats, nextId) && ProductsValid(prods, cats, nextId) && LinksValid(links, promos, prods)
    requires p.id == nextId && !HasKey(prods, ProductSlug, p.slug)
    requires p.categoryId.Some? ==> HasKey(cats, CategoryId, p.categoryId.value)
    ensures CategoriesValid(cats, nextId + 1) && ProductsValid(prods + [p], cats, nextId + 1)
    ensures LinksValid(links, promos, prods + [p])
  {
    KeysAppend(prods, ProductId, p);
    KeysAppend(prods, ProductSlug, p);
    LinksKeepProducts(links, promos, prods, prods + [p]);
  }

  /** The checks of `create`, run against the tables before the write. */
  method CheckCreate(prods: seq<Product>, cats: seq<Category>, users: seq<User>, session: Option<Session>, input: ProductInput)
    returns (e: Option<ErrorCode>)
    requires KeysUnique(users, UserId)
    ensures e == CreateRejection(prods, cats, users, session, input)
  {
    var guard := IsAdmin(session, users);
    if guard.Err? {
      return Some(guard.code);
    }
    if !ValidProductInput(input) {
      return Some(BadRequest);
    }
    var unique := ValidateSlugUniqueness(prods, ProductId, ProductSlug, input.slug, None);
    if unique.Fail? {
      return Some(unique.code);
    }
    if input.categoryId.Some? && FindFirst(cats, CategoryId, input.categoryId.value).None? {
      return Some(InternalError);
    }
    return None;
  }

  /** `create`: after the admin guard and the schema, a taken slug or a missing category
      fails; otherwise the product is appended with a fresh id and the schema defaults, and
      a lookup by its slug finds it. */
  method Create(db: Database, session: Option<Session>, now: int, input: ProductInput) returns (r: Result<Product>)
    requires db.Valid()
    modifies db
    ensures db.Valid()
    ensures r.Err? ==> Some(r.code) == CreateRejection(old(db.products), old(db.categories), old(db.users), session, input)
    ensures r.Ok? ==> CreateRejection(old(db.products), old(db.categories), old(db.users), session, input) == None
    ensures r.Err? ==> unchanged(db)
    ensures r.Ok? ==> r.value == NewProduct(old(db.nextId), now, input)
    ensures r.Ok? ==> (r.value.stock >= 0 && r.value.isActive == (input.isActive != Some(false)) &&
      r.value.isFeatured == (input.isFeatured == Some(true)))
    ensures r.Ok? ==> db.products == old(db.products) + [r.value] && db.nextId == old(db.nextId) + 1
    ensures r.Ok? ==> FindFirst(db.products, ProductSlug, input.slug) == Some(|old(db.products)|)
    ensures db.categories == old(db.categories) && db.promotions == old(db.promotions) && db.links == old(db.links) && db.users == old(db.users)
  {
    var rejection := CheckCreate(db.products, db.categories, db.users, session, input);
    if rejection.Some? {
      return Err(rejection.value);
    }
    var p := NewProduct(db.nextId, now, input);
    AppendKeepsValid(db.categories, db.products, db.promotions, db.links, db.nextId, p);
    FindAppended(db.products, ProductSlug, p);
    IdBumpKeepsValid(db.promotions, db.users, db.nextId);
    db.products := db.products + [p];
    db.nextId := db.nextId + 1;
    r := Ok(p);
  }

  // ----- update -----

  /** The checks of `update` in the order they run. A supplied slug held by another product
      is the plain slug error; the write itself fails in the store when the id does not
      exist or the new category does not. */
  ghost function UpdateRejection(prods: seq<Product>, cats: seq<Category>, users: seq<User>, session: Option<Session>, id: Id, data: ProductPatch): Option<ErrorCode>
    requires KeysUnique(users, UserId)
  {
    if !Admits(session, users) then Some(IsAdmin(session, users).code)
    else if !ValidProductPatch(data) then Some(BadRequest)
    else if data.slug.Set? && SlugHeldByOther(prods, ProductId, ProductSlug, data.slug.value, Some(id)) then Some(InternalError)
    else if !HasKey(prods, ProductId, id) then Some(InternalError)
    else if data.categoryId.Set? && data.categoryId.value.Some? && !HasKey(cats, CategoryId, data.categoryId.value.value) then Some(InternalError)
    else None
  }

  /** Replacing a product by one with the same id, a slug no other product holds and a
      category that exists keeps the tables valid. */
  lemma ReplaceKeepsValid(cats: seq<Category>, prods: seq<Product>, promos: seq<Promotion>, links: seq<ProductPromotion>, nextId: Id, i: nat, p: Product)
    requires CategoriesValid(cats, nextId) && ProductsValid(prods, cats, nextId) && LinksValid(links, promos, prods)
    requires i < |prods| && p.id == prods[i].id
    requires forall k :: 0 <= k < |prods| && prods[k].slug == p.slug ==> k == i
    requires p.categoryId.Some? ==> HasKey(cats, CategoryId, p.categoryId.value)
    ensures ProductsValid(prods[i := p], cats, nextId)
    ensures LinksValid(links, promos, prods[i := p])
  {
    KeysReplace(prods, ProductId, i, p);
    KeysReplace(prods, ProductSlug, i, p);
    LinksKeepProducts(links, promos, prods, prods[i := p]);
  }

  /** The checks of `update`, run against the tables before the write. */
  method CheckUpdate(prods: seq<Product>, cats: seq<Category>, users: seq<User>, session: Option<Session>, id: Id, data: ProductPatch)
    returns (e: Option<ErrorCode>)
    requires KeysUnique(users, UserId)
    ensures e == UpdateRejection(prods, cats, users, session, id, data)
  {
    var guard := IsAdmin(session, users);
    if guard.Err? {
      return Some(guard.code);
    }
    if !ValidProductPatch(data) {
      return Some(BadRequest);
    }
    if data.slug.Set? {
      var unique := ValidateSlugUniqueness(prods, ProductId, ProductSlug, data.slug.value, Some(id));
      if unique.Fail? {
        return Some(unique.code);
      }
    }
    if FindFirst(prods, ProductId, id).None? {
      return Some(InternalError);
    }
    if data.categoryId.Set? && data.categoryId.value.Some? && FindFirst(cats, CategoryId, data.categoryId.value.value).None? {
      return Some(InternalError);
    }
    return None;
  }

  /** `update`: after the admin guard and the partial schema, a supplied slug that another
      product holds fails, and so does a write to a missing id or to a missing category;
      otherwise only the product with that id changes, as `PatchedProduct` describes for
      the patch with the schema's defaults filled in. */
  method Update(db: Database, session: Option<Session>, id: Id, data: ProductPatch) returns (r: Result<Product>)
    requires db.Valid()
    modifies db
    ensures db.Valid()
    ensures r.Err? ==> Some(r.code) == UpdateRejection(old(db.products), old(db.categories), old(db.users), session, id, data)
    ensures r.Ok? ==> UpdateRejection(old(db.products), old(db.categories), old(db.users), session, id, data) == None
    ensures r.Err? ==> unchanged(db)
    ensures r.Ok? ==> r.value.id == id && r.value in db.products && |db.products| == |old(db.products)|
    ensures r.Ok? ==> forall k :: 0 <= k < |db.products| ==>
      db.products[k] == if old(db.products[k]).id == id then PatchedProduct(old(db.products[k]), PartialDefaults(data)) else old(db.products[k])
    ensures db.nextId == old(db.nextId)
    ensures db.categories == old(db.categories) && db.promotions == old(db.promotions) && db.links == old(db.links) && db.users == old(db.users)
  {
    var rejection := CheckUpdate(db.products, db.categories, db.users, session, id, data);
    if rejection.Some? {
      return Err(rejection.value);
    }
    var i := FindFirst(db.products, ProductId, id).value;
    var p := PatchedProduct(db.products[i], PartialDefaults(data));
    KeyLocates(db.products, ProductId, i);
    if data.slug.Keep? {
      KeyLocates(db.products, ProductSlug, i);
    }
    ReplaceKeepsValid(db.categories, db.products, db.promotions, db.links, db.nextId, i, p);
    db.products := db.products[i := p];
    assert db.products[i] == p;
    r := Ok(p);
  }

  // ----- updateStatus / updateFeatured -----

  /** The flag a toggle negates: `isActive` for `updateStatus`, `isFeatured` for
      `updateFeatured`. */
  datatype Flag = Status | Featured

  function FlagOf(p: Product, flag: Flag): bool {
    match flag case Status => p.isActive case Featured => p.isFeatured
  }

  /** The product with the flag negated and every other field as it was. */
  function Flipped(p: Product, flag: Flag): (r: Product)
    ensures FlagOf(r, flag) == !FlagOf(p, flag)
    ensures r.(isActive := p.isActive, isFeatured := p.isFeatured) == p
  {
    match flag
    case Status => p.(isActive := !p.isActive)
    case Featured => p.(isFeatured := !p.isFeatured)
  }

  /** The table after toggling the flag of the product with id `id`. */
  function Toggled(prods: seq<Product>, id: Id, flag: Flag): (r: seq<Product>)
    ensures |r| == |prods|
    ensures forall k :: 0 <= k < |r| ==> r[k] == if prods[k].id == id then Flipped(prods[k], flag) else prods[k]
  {
    if prods == [] then []
    else [if prods[0].id == id then Flipped(prods[0], flag) else prods[0]] + Toggled(prods[1..], id, flag)
  }

  /** Toggling the same flag twice restores the table. */
  lemma {:induction false} ToggleTwice(prods: seq<Product>, id: Id, flag: Flag)
    ensures Toggled(Toggled(prods, id, flag), id, flag) == prods
  {
    if prods != [] {
      ToggleTwice(prods[1..], id, flag);
      assert Toggled(prods, id, flag)[1..] == Toggled(prods[1..], id, flag);
    }
  }

  lemma FlipsCommute(p: Product, a: Flag, b: Flag)
    ensures Flipped(Flipped(p, a), b) == Flipped(Flipped(p, b), a)
  {
  }

  /** Toggling one flag leaves the other flag of every product alone, and toggling the two
      flags commutes. */
  lemma TogglesCommute(prods: seq<Product>, id: Id, a: Flag, b: Flag)
    ensures Toggled(Toggled(prods, id, a), id, b) == Toggled(Toggled(prods, id, b), id, a)
  {
    var ab := Toggled(Toggled(prods, id, a), id, b);
    var ba := Toggled(Toggled(prods, id, b), id, a);
    forall k | 0 <= k < |ab| ensures ab[k] == ba[k] {
      if prods[k].id == id {
        FlipsCommute(prods[k], a, b);
      }
    }
  }

  /** Toggling a flag keeps ids, slugs and categories, so the tables stay valid. */
  lemma ToggleKeepsValid(cats: seq<Category>, prods: seq<Product>, promos: seq<Promotion>, links: seq<ProductPromotion>, nextId: Id, id: Id, flag: Flag)
    requires ProductsValid(prods, cats, nextId) && LinksValid(links, promos, prods)
    ensures ProductsValid(Toggled(prods, id, flag), cats, nextId)
    ensures LinksValid(links, promos, Toggled(prods, id, flag))
  {
    var after := Toggled(prods, id, flag);
    assert forall k :: 0 <= k < |after| ==>
      after[k].id == prods[k].id && after[k].slug == prods[k].slug && after[k].categoryId == prods[k].categoryId;
    forall k | HasKey(prods, ProductId, k) ensures HasKey(after, ProductId, k) {
      var m :| 0 <= m < |prods| && ProductId(prods[m]) == k;
      assert ProductId(after[m]) == k;
    }
    LinksKeepProducts(links, promos, prods, after);
  }

  /** `updateStatus` (flag `Status`) and `updateFeatured` (flag `Featured`): after the admin
      guard, NOT_FOUND when the product is missing; otherwise the flag is negated and nothing
      else changes. */
  method Toggle(db: Database, session: Option<Session>, id: Id, flag: Flag) returns (r: Result<Product>)
    requires db.Valid()
    modifies db
    ensures db.Valid()
    ensures !Admits(session, old(db.users)) ==> r == Err(IsAdmin(session, old(db.users)).code)
    ensures Admits(session, old(db.users)) ==> (r == Err(NotFound) <==> !HasKey(old(db.products), ProductId, id))
    ensures r.Ok? <==> Admits(session, old(db.users)) && HasKey(old(db.products), ProductId, id)
    ensures r.Err? ==> unchanged(db)
    ensures r.Ok? ==> db.products == Toggled(old(db.products), id, flag)
    ensures r.Ok? ==> r.value.id == id && r.value in db.products
    ensures r.Ok? ==> exists k :: 0 <= k < |old(db.products)| && old(db.products[k]).id == id && r.value == Flipped(old(db.products[k]), flag)
    ensures db.nextId == old(db.nextId)
    ensures db.categories == old(db.categories) && db.promotions == old(db.promotions) && db.links == old(db.links) && db.users == old(db.users)
  {
    var guard := IsAdmin(session, db.users);
    if guard.Err? {
      return Err(guard.code);
    }
    var found := FindFirst(db.products, ProductId, id);
    if found.None? {
      return Err(NotFound);
    }
    var i := found.value;
    var p := Flipped(db.products[i], flag);
    ToggleKeepsValid(db.categories, db.products, db.promotions, db.links, db.nextId, id, flag);
    KeyLocates(db.products, ProductId, i);
    db.products := Toggled(db.products, id, flag);
    assert db.products[i] == p;
    r := Ok(p);
  }

  // ----- delete -----

  /** Removing a product that no link row names keeps the tables valid. */
  lemma RemoveKeepsValid(cats: seq<Category>, prods: seq<Product>, promos: seq<Promotion>, links: seq<ProductPromotion>, nextId: Id, i: nat)
    requires ProductsValid(prods, cats, nextId) && LinksValid(links, promos, prods) && i < |prods|
    requires !HasKey(links, LinkProductId, prods[i].id)
    ensures ProductsValid(RemoveAt(prods, i), cats, nextId)
    ensures LinksValid(links, promos, RemoveAt(prods, i))
  {
    KeysRemove(prods, ProductId, i);
    KeysRemove(prods, ProductSlug, i);
    LinksKeepProducts(links, promos, prods, RemoveAt(prods, i));
  }

  /** `delete`: after the admin guard, NOT_FOUND when the product is missing; the store
      refuses to delete a product that a link row still names (the foreign key of the link
      table's `product` relation, under the default Restrict rule), an internal error;
      otherwise exactly its row is removed. */
  method Delete(db: Database, session: Option<Session>, id: Id) returns (r: Result<()>)
    requires db.Valid()
    modifies db
    ensures db.Valid()
    ensures !Admits(session, old(db.users)) ==> r == Err(IsAdmin(session, old(db.users)).code)
    ensures Admits(session, old(db.users)) ==> (r == Err(NotFound) <==> !HasKey(old(db.products), ProductId, id))
    ensures Admits(session, old(db.users)) && HasKey(old(db.products), ProductId, id) ==>
      (r == Err(InternalError) <==> HasKey(old(db.links), LinkProductId, id))
    ensures r.Ok? <==> Admits(session, old(db.users)) && HasKey(old(db.products), ProductId, id) && !HasKey(old(db.links), LinkProductId, id)
    ensures r.Err? ==> unchanged(db)
    ensures r.Ok? ==> forall x :: x in db.products <==> x in old(db.products) && x.id != id
    ensures r.Ok? ==> |db.products| == |old(db.products)| - 1
    ensures db.nextId == old(db.nextId)
    ensures db.categories == old(db.categories) && db.promotions == old(db.promotions) && db.links == old(db.links) && db.users == old(db.users)
  {
    var guard := IsAdmin(session, db.users);
    if guard.Err? {
      return Err(guard.code);
    }
    var found := FindFirst(db.products, ProductId, id);
    if found.None? {
      return Err(NotFound);
    }
    if FindFirst(db.links, LinkProductId, id).Some? {
      return Err(InternalError);
    }
    var i := found.value;
    ghost var prods := db.products;
    KeyLocates(prods, ProductId, i);
    RemoveKeepsValid(db.categories, prods, db.promotions, db.links, db.nextId, i);
    db.products := RemoveAt(db.products, i);
    assert db.products == prods[..i] + prods[i + 1..];
    r := Ok(());
  }
}
