/** The promotion procedures: the public views of the promotions running now, and the
    admin-only listing, `create`, `update` and `delete`, which keep codes unique and replace a
    promotion's product links as a whole. */
module Promotions {
  import opened Outcomes
  import opened Entities
  import opened Tables
  import opened Store
  import opened Middleware

  /** A promotion runs at `now` when it is active and `now` lies in its window, both ends
      included. */
  predicate ActiveAt(q: Promotion, now: int) {
    q.isActive && q.startDate <= now <= q.endDate
  }

  /** A promotion with the products its link rows name (the nested
      `include: { products: { include: { product: true } } }`). */
  datatype PromotionWithProducts = PromotionWithProducts(promotion: Promotion, products: seq<Product>)

  function WithProducts(prods: seq<Product>, links: seq<ProductPromotion>, qs: seq<Promotion>): (r: seq<PromotionWithProducts>)
    ensures |r| == |qs|
    ensures forall i :: 0 <= i < |r| ==> r[i].promotion == qs[i] && r[i].products == LinkedProducts(links, prods, qs[i].id)
  {
    if qs == [] then [] else [PromotionWithProducts(qs[0], LinkedProducts(links, prods, qs[0].id))] + WithProducts(prods, links, qs[1..])
  }

  // ----- getActive and getByProductId -----

  /** `getActive`: the promotions running at `now`, each with its products. */
  function GetActive(promos: seq<Promotion>, prods: seq<Product>, links: seq<ProductPromotion>, now: int): (r: seq<PromotionWithProducts>)
    ensures forall i :: 0 <= i < |r| ==> r[i].promotion in promos && ActiveAt(r[i].promotion, now)
    ensures forall i :: 0 <= i < |r| ==> r[i].products == LinkedProducts(links, prods, r[i].promotion.id)
  {
    var running := Filter(promos, (q: Promotion) => ActiveAt(q, now));
    var r := WithProducts(prods, links, running);
    assert forall i :: 0 <= i < |r| ==> r[i].promotion == running[i] && running[i] in running;
    r
  }

  /** Every promotion running at `now` is listed by `getActive`. */
  lemma GetActiveComplete(promos: seq<Promotion>, prods: seq<Product>, links: seq<ProductPromotion>, now: int)
    ensures var r := GetActive(promos, prods, links, now);
      forall q :: q in promos && ActiveAt(q, now) ==> exists i :: 0 <= i < |r| && r[i].promotion == q
  {
    var running := Filter(promos, (q: Promotion) => ActiveAt(q, now));
    var r := GetActive(promos, prods, links, now);
    forall q | q in promos && ActiveAt(q, now) ensures exists i :: 0 <= i < |r| && r[i].promotion == q {
      var i :| 0 <= i < |running| && running[i] == q;
      assert r[i].promotion == q;
    }
  }

  /** `getByProductId`: the promotions linked to the product that run at `now`, one per
      link row in storage order. */
  function GetByProductId(promos: seq<Promotion>, links: seq<ProductPromotion>, productId: Id, now: int): (r: seq<Promotion>)
    ensures forall q :: q in r ==> q in promos && ActiveAt(q, now) && ProductPromotion(productId, q.id) in links
  {
    Filter(LinkedPromotions(links, promos, productId), (q: Promotion) => ActiveAt(q, now))
  }

  /** `getByProductId` lists every running promotion linked to the product. */
  lemma GetByProductIdComplete(promos: seq<Promotion>, links: seq<ProductPromotion>, productId: Id, now: int)
    requires KeysUnique(promos, PromotionId)
    ensures forall q :: q in promos && ActiveAt(q, now) && ProductPromotion(productId, q.id) in links ==>
      q in GetByProductId(promos, links, productId, now)
  {
    forall q | q in promos && ActiveAt(q, now) && ProductPromotion(productId, q.id) in links
      ensures q in GetByProductId(promos, links, productId, now)
    {
      LinkedPromotionsComplete(links, promos, productId, q);
    }
  }

  // ----- getAll -----

  /** The input of the admin `getAll`, after the schema's defaults: both flags default to
      false. */
  datatype ListInput = ListInput(includeInactive: bool, includeExpired: bool)

  /** The `where` of `getAll`: inactive promotions only when asked for, and promotions that
      ended before `now` only when asked for. */
  predicate Listed(q: Promotion, input: ListInput, now: int) {
    (input.includeInactive || q.isActive) && (input.includeExpired || q.endDate >= now)
  }

  function EndsNoLater(a: Promotion, b: Promotion): bool {
    a.endDate <= b.endDate
  }

  lemma EndsNoLaterOrders()
    ensures TotalPreorder(EndsNoLater)
  {
  }

  /** `orderBy: { endDate: 'asc' }`. */
  function SoonestEndingFirst(s: seq<Promotion>): (r: seq<Promotion>)
    ensures multiset(r) == multiset(s)
    ensures forall i, j :: 0 <= i < j < |r| ==> r[i].endDate <= r[j].endDate
  {
    EndsNoLaterOrders();
    var r := SortBy(s, EndsNoLater);
    assert forall i, j :: 0 <= i < j < |r| ==> EndsNoLater(r[i], r[j]);
    r
  }

  /** The promotions the admin listing shows, soonest ending first. */
  function AdminListing(promos: seq<Promotion>, input: ListInput, now: int): (r: seq<Promotion>)
    ensures forall q :: q in r <==> q in promos && Listed(q, input, now)
    ensures forall i, j :: 0 <= i < j < |r| ==> r[i].endDate <= r[j].endDate
  {
    var listed := Filter(promos, (q: Promotion) => Listed(q, input, now));
    var r := SoonestEndingFirst(listed);
    assert forall q :: q in r <==> q in multiset(r);
    assert forall q :: q in listed <==> q in multiset(listed);
    r
  }

  /** `getAll`: the admin guard, then the listing, each promotion with its products. */
  function GetAll(session: Option<Session>, users: seq<User>, promos: seq<Promotion>, prods: seq<Product>,
                  links: seq<ProductPromotion>, input: ListInput, now: int): (r: Result<seq<PromotionWithProducts>>)
    requires KeysUnique(users, UserId)
    ensures r.Err? <==> !Admits(session, users)
    ensures r.Err? ==> r.code == IsAdmin(session, users).code
    ensures r.Ok? ==> forall i :: 0 <= i < |r.value| ==> r.value[i].promotion in promos && Listed(r.value[i].promotion, input, now)
    ensures r.Ok? ==> forall i, j :: 0 <= i < j < |r.value| ==> r.value[i].promotion.endDate <= r.value[j].promotion.endDate
    ensures r.Ok? ==> forall i :: 0 <= i < |r.value| ==> r.value[i].products == LinkedProducts(links, prods, r.value[i].promotion.id)
  {
    var guard := IsAdmin(session, users);
    if guard.Err? then Err(guard.code)
    else
      var listing := AdminListing(promos, input, now);
      var r := WithProducts(prods, links, listing);
      assert forall i :: 0 <= i < |r| ==> r[i].promotion == listing[i] && listing[i] in listing;
      Ok(r)
  }

  /** `getAll` shows every promotion its filters admit. */
  lemma GetAllComplete(session: Option<Session>, users: seq<User>, promos: seq<Promotion>, prods: seq<Product>,
                       links: seq<ProductPromotion>, input: ListInput, now: int)
    requires KeysUnique(users, UserId) && Admits(session, users)
    ensures var r := GetAll(session, users, promos, prods, links, input, now);
      forall q :: q in promos && Listed(q, input, now) ==> exists i :: 0 <= i < |r.value| && r.value[i].promotion == q
  {
    var listing := AdminListing(promos, input, now);
    var r := GetAll(session, users, promos, prods, links, input, now);
    assert r.value == WithProducts(prods, links, listing);
    forall q | q in promos && Listed(q, input, now) ensures exists i :: 0 <= i < |r.value| && r.value[i].promotion == q {
      var i :| 0 <= i < |listing| && listing[i] == q;
      assert r.value[i].promotion == q;
    }
  }

  // ----- link rows -----

  /** One link row per product id, in the order given (a `createMany`). */
  function LinksFor(promotionId: Id, productIds: seq<Id>): (r: seq<ProductPromotion>)
    ensures |r| == |productIds|
    ensures forall k :: 0 <= k < |r| ==> r[k] == ProductPromotion(productIds[k], promotionId)
    ensures forall l :: l in r <==> l.promotionId == promotionId && l.productId in productIds
  {
    if productIds == [] then []
    else [ProductPromotion(productIds[0], promotionId)] + LinksFor(promotionId, productIds[1..])
  }

  /** The store refuses a `createMany` of link rows as a whole when a product id repeats
      (the composite unique key) or names no product (the foreign key of the `product`
      relation). */
  predicate LinksRefused(prods: seq<Product>, productIds: seq<Id>) {
    (exists i, j :: 0 <= i < j < |productIds| && productIds[i] == productIds[j]) ||
    (exists i :: 0 <= i < |productIds| && !HasKey(prods, ProductId, productIds[i]))
  }

  /** A batch is refused exactly when its rows would break a constraint of the link table:
      two rows with the same key, or a row naming no product. */
  lemma LinksAccepted(prods: seq<Product>, promotionId: Id, productIds: seq<Id>)
    ensures !LinksRefused(prods, productIds) <==>
      KeysUnique(LinksFor(promotionId, productIds), LinkKey) &&
      forall l :: l in LinksFor(promotionId, productIds) ==> HasKey(prods, ProductId, l.productId)
  {
    var r := LinksFor(promotionId, productIds);
    assert forall k :: 0 <= k < |r| ==> LinkKey(r[k]) == (productIds[k], promotionId);
    if KeysUnique(r, LinkKey) && forall l :: l in r ==> HasKey(prods, ProductId, l.productId) {
      forall k | 0 <= k < |productIds| ensures HasKey(prods, ProductId, productIds[k]) {
        assert r[k] in r;
      }
    }
  }

  /** The link rows without those of one promotion (a `deleteMany` on `promotionId`). */
  function Unlink(links: seq<ProductPromotion>, promotionId: Id): (r: seq<ProductPromotion>)
    ensures forall l :: l in r <==> l in links && l.promotionId != promotionId
  {
    Filter(links, (l: ProductPromotion) => l.promotionId != promotionId)
  }

  /** The delete-then-insert of `update` when product ids are supplied. */
  function ReplaceLinks(links: seq<ProductPromotion>, promotionId: Id, productIds: seq<Id>): seq<ProductPromotion> {
    Unlink(links, promotionId) + LinksFor(promotionId, productIds)
  }

  /** The link rows after `update`: replaced when product ids are supplied, untouched
      otherwise. */
  function LinksAfterUpdate(links: seq<ProductPromotion>, promotionId: Id, productIds: Option<seq<Id>>): seq<ProductPromotion> {
    if productIds.Some? then ReplaceLinks(links, promotionId, productIds.value) else links
  }

  /** After the replacement the promotion is linked to exactly the supplied products; an
      empty list leaves it with none. */
  lemma ReplacedLinksExact(links: seq<ProductPromotion>, promotionId: Id, productIds: seq<Id>)
    ensures forall pid :: ProductPromotion(pid, promotionId) in ReplaceLinks(links, promotionId, productIds) <==> pid in productIds
  {
  }

  /** Link rows of other promotions survive the replacement, and no others appear. */
  lemma ReplacedLinksKeepOthers(links: seq<ProductPromotion>, promotionId: Id, productIds: seq<Id>)
    ensures forall l: ProductPromotion :: l.promotionId != promotionId ==> (l in ReplaceLinks(links, promotionId, productIds) <==> l in links)
  {
  }

  lemma {:induction false} LinkedProductsAppend(a: seq<ProductPromotion>, b: seq<ProductPromotion>, prods: seq<Product>, promotionId: Id)
    ensures LinkedProducts(a + b, prods, promotionId) == LinkedProducts(a, prods, promotionId) + LinkedProducts(b, prods, promotionId)
  {
    if a == [] {
      assert a + b == b;
    } else {
      var ab := a + b;
      assert ab[0] == a[0] && ab[1..] == a[1..] + b;
      LinkedProductsAppend(a[1..], b, prods, promotionId);
    }
  }

  lemma {:induction false} LinksForOthersEmpty(promotionId: Id, productIds: seq<Id>, prods: seq<Product>, other: Id)
    requires other != promotionId
    ensures LinkedProducts(LinksFor(promotionId, productIds), prods, other) == []
  {
    if productIds != [] {
      LinksForOthersEmpty(promotionId, productIds[1..], prods, other);
    }
  }

  lemma {:induction false} UnlinkKeepsOthers(links: seq<ProductPromotion>, prods: seq<Product>, promotionId: Id, other: Id)
    requires other != promotionId
    ensures LinkedProducts(Unlink(links, promotionId), prods, other) == LinkedProducts(links, prods, other)
  {
    if links != [] {
      UnlinkKeepsOthers(links[1..], prods, promotionId, other);
      var keep := (l: ProductPromotion) => l.promotionId != promotionId;
      assert Unlink(links, promotionId) == Filter(links, keep);
      assert Unlink(links[1..], promotionId) == Filter(links[1..], keep);
      if keep(links[0]) {
        assert ([links[0]] + Filter(links[1..], keep))[1..] == Filter(links[1..], keep);
      }
    }
  }

  /** What another promotion lists as its products, in order, is untouched by replacing
      this promotion's links. */
  lemma ReplaceKeepsOtherProducts(links: seq<ProductPromotion>, prods: seq<Product>, promotionId: Id, productIds: seq<Id>, other: Id)
    requires other != promotionId
    ensures LinkedProducts(ReplaceLinks(links, promotionId, productIds), prods, other) == LinkedProducts(links, prods, other)
  {
    LinkedProductsAppend(Unlink(links, promotionId), LinksFor(promotionId, productIds), prods, other);
    UnlinkKeepsOthers(links, prods, promotionId, other);
    LinksForOthersEmpty(promotionId, productIds, prods, other);
  }

  /** Adding a new promotion's links leaves every other promotion's products as they were. */
  lemma AddLinksKeepsOtherProducts(links: seq<ProductPromotion>, prods: seq<Product>, promotionId: Id, productIds: seq<Id>, other: Id)
    requires other != promotionId
    ensures LinkedProducts(links + LinksFor(promotionId, productIds), prods, other) == LinkedProducts(links, prods, other)
  {
    LinkedProductsAppend(links, LinksFor(promotionId, productIds), prods, other);
    LinksForOthersEmpty(promotionId, productIds, prods, other);
  }

  // ----- create -----

  /** The input of `create` after the schema's defaults: `code` may be absent or null (both
      `None`), an absent `isActive` is true, and an absent `productIds` is the empty list. */
  datatype PromotionInput = PromotionInput(
    name: string,
    description: Option<string>,
    discountType: DiscountType,
    discountValue: int,
    code: Option<string>,
    startDate: int,
    endDate: int,
    isActive: bool,
    productIds: seq<Id>)

  /** `promotionSchema`: a name of two or more characters and a positive discount. */
  predicate ValidPromotionInput(input: PromotionInput) {
    |input.name| >= 2 && input.discountValue > 0
  }

  function NewPromotion(id: Id, input: PromotionInput): Promotion {
    Promotion(id, input.name, input.description, input.discountType, input.discountValue, input.code,
              input.startDate, input.endDate, input.isActive)
  }

  /** The checks of `create` in the order they run. Only a non-empty code is looked up and
      reported as CONFLICT; an empty code that is taken reaches the store, whose unique
      constraint refuses it. */
  ghost function CreateRejection(promos: seq<Promotion>, users: seq<User>, session: Option<Session>, input: PromotionInput): Option<ErrorCode>
    requires KeysUnique(users, UserId)
  {
    if !Admits(session, users) then Some(IsAdmin(session, users).code)
    else if !ValidPromotionInput(input) then Some(BadRequest)
    else if Truthy(input.code) && HasKey(promos, PromotionCode, input.code) then Some(Conflict)
    else if input.code.Some? && HasKey(promos, PromotionCode, input.code) then Some(InternalError)
    else None
  }

  /** Appending a promotion with a fresh id and a free code, and its links, keeps the
      promotion and link tables valid. */
  lemma AppendKeepsValid(promos: seq<Promotion>, prods: seq<Product>, links: seq<ProductPromotion>, nextId: Id, q: Promotion, productIds: seq<Id>)
    requires PromotionsValid(promos, nextId) && LinksValid(links, promos, prods)
    requires q.id == nextId && (q.code.Some? ==> !HasKey(promos, PromotionCode, q.code))
    ensures PromotionsValid(promos + [q], nextId + 1)
    ensures LinksValid(links, promos + [q], prods)
    ensures !LinksRefused(prods, productIds) ==> LinksValid(links + LinksFor(q.id, productIds), promos + [q], prods)
  {
    var after := promos + [q];
    assert !HasKey(promos, PromotionId, q.id);
    KeysAppend(promos, PromotionId, q);
    if !LinksRefused(prods, productIds) {
      var added := LinksFor(q.id, productIds);
      LinksAccepted(prods, q.id, productIds);
      forall x, y | x in links && y in added ensures LinkKey(x) != LinkKey(y) {
        var m :| 0 <= m < |promos| && PromotionId(promos[m]) == x.promotionId;
      }
      ConcatKeysUnique(links, added, LinkKey);
    }
    forall i, j | 0 <= i < j < |after| && after[i].code.Some? ensures after[i].code != after[j].code {
      if j == |promos| {
        assert PromotionCode(promos[i]) == after[i].code;
      } else {
        assert after[i] == promos[i] && after[j] == promos[j];
      }
    }
    assert PromotionId(after[|promos|]) == q.id;
  }

  /** The checks of `create`, run against the tables before the write. */
  method CheckCreate(promos: seq<Promotion>, users: seq<User>, session: Option<Session>, input: PromotionInput) returns (e: Option<ErrorCode>)
    requires KeysUnique(users, UserId)
    ensures e == CreateRejection(promos, users, session, input)
  {
    var guard := IsAdmin(session, users);
    if guard.Err? {
      return Some(guard.code);
    }
    if !ValidPromotionInput(input) {
      return Some(BadRequest);
    }
    var taken := FindFirst(promos, PromotionCode, input.code).Some?;
    if Truthy(input.code) && taken {
      return Some(Conflict);
    }
    if input.code.Some? && taken {
      return Some(InternalError);
    }
    return None;
  }

  /** `create`: after the admin guard and the schema, CONFLICT when a non-empty code is
      taken; otherwise the promotion is appended with a fresh id, followed by one link per
      supplied product id. The two writes are separate: when the store refuses the links,
      the promotion stays without them and the call ends in an internal error. */
  method Create(db: Database, session: Option<Session>, input: PromotionInput) returns (r: Result<Promotion>)
    requires db.Valid()
    modifies db
    ensures db.Valid()
    ensures r.Ok? <==> CreateRejection(old(db.promotions), old(db.users), session, input) == None && !LinksRefused(old(db.products), input.productIds)
    ensures r.Err? ==> (Some(r.code) == CreateRejection(old(db.promotions), old(db.users), session, input) ||
      (CreateRejection(old(db.promotions), old(db.users), session, input) == None && r.code == InternalError))
    ensures CreateRejection(old(db.promotions), old(db.users), session, input).Some? ==> unchanged(db)
    ensures CreateRejection(old(db.promotions), old(db.users), session, input) == None ==>
      db.promotions == old(db.promotions) + [NewPromotion(old(db.nextId), input)] && db.nextId == old(db.nextId) + 1 &&
      !HasKey(old(db.promotions), PromotionId, old(db.nextId))
    ensures CreateRejection(old(db.promotions), old(db.users), session, input) == None ==>
      db.links == if LinksRefused(old(db.products), input.productIds) then old(db.links) else old(db.links) + LinksFor(old(db.nextId), input.productIds)
    ensures r.Ok? ==> r.value == NewPromotion(old(db.nextId), input)
    ensures db.categories == old(db.categories) && db.products == old(db.products) && db.users == old(db.users)
  {
    var rejection := CheckCreate(db.promotions, db.users, session, input);
    if rejection.Some? {
      return Err(rejection.value);
    }
    var q := NewPromotion(db.nextId, input);
    AppendKeepsValid(db.promotions, db.products, db.links, db.nextId, q, input.productIds);
    CatalogIdBumpKeepsValid(db.categories, db.products, db.nextId);
    IdBumpKeepsValid(db.promotions, db.users, db.nextId);
    db.promotions := db.promotions + [q];
    db.nextId := db.nextId + 1;
    if LinksRefused(db.products, input.productIds) {
      return Err(InternalError);
    }
    db.links := db.links + LinksFor(q.id, input.productIds);
    r := Ok(q);
  }

  // ----- update -----

  /** The input of `update` as the caller sends it (`promotionSchema.partial()`); `code` may
      be set to null. */
  datatype PromotionPatch = PromotionPatch(
    name: Patch<string>,
    description: Patch<string>,
    discountType: Patch<DiscountType>,
    discountValue: Patch<int>,
    code: Patch<Option<string>>,
    startDate: Patch<int>,
    endDate: Patch<int>,
    isActive: Patch<bool>)

  predicate ValidPromotionPatch(data: PromotionPatch) {
    (data.name.Set? ==> |data.name.value| >= 2) && (data.discountValue.Set? ==> data.discountValue.value > 0)
  }

  /** The row after `update`, with `isActive`'s default filled in when it is omitted. */
  function Patched(q: Promotion, data: PromotionPatch): Promotion {
    q.(name := data.name.Apply(q.name),
       description := if data.description.Set? then Some(data.description.value) else q.description,
       discountType := data.discountType.Apply(q.discountType),
       discountValue := data.discountValue.Apply(q.discountValue),
       code := data.code.Apply(q.code),
       startDate := data.startDate.Apply(q.startDate),
       endDate := data.endDate.Apply(q.endDate),
       isActive := data.isActive.Apply(true))
  }

  /** `.partial()` keeps the field's `.default(true)`: an update that omits `isActive`
      switches the promotion on. */
  lemma OmittedIsActiveSwitchesOn(q: Promotion, data: PromotionPatch)
    requires data.isActive.Keep?
    ensures Patched(q, data).isActive
  {
  }

  /** A non-empty code that differs from the promotion's own and that some promotion holds. */
  predicate CodeChangeTaken(promos: seq<Promotion>, id: Id, data: PromotionPatch) {
    data.code.Set? && Truthy(data.code.value) &&
    (forall k :: 0 <= k < |promos| && promos[k].id == id ==> promos[k].code != data.code.value) &&
    HasKey(promos, PromotionCode, data.code.value)
  }

  /** A code some other promotion holds. */
  ghost predicate CodeHeldByOther(promos: seq<Promotion>, id: Id, code: Option<string>) {
    exists k :: 0 <= k < |promos| && promos[k].code == code && promos[k].id != id
  }

  /** The checks of `update` after the admin guard, in the order they run. Inside the
      transaction, a taken code that escapes the CONFLICT check (an empty one) is refused by
      the store's unique constraint, and refused link rows roll the whole transaction back;
      both are internal errors. */
  ghost function PatchRejection(promos: seq<Promotion>, prods: seq<Product>, id: Id, data: PromotionPatch, productIds: Option<seq<Id>>): Option<ErrorCode> {
    if !ValidPromotionPatch(data) then Some(BadRequest)
    else if !HasKey(promos, PromotionId, id) then Some(NotFound)
    else if CodeChangeTaken(promos, id, data) then Some(Conflict)
    else if data.code.Set? && data.code.value.Some? && CodeHeldByOther(promos, id, data.code.value) then Some(InternalError)
    else if productIds.Some? && LinksRefused(prods, productIds.value) then Some(InternalError)
    else None
  }

  ghost function UpdateRejection(promos: seq<Promotion>, prods: seq<Product>, users: seq<User>, session: Option<Session>, id: Id,
                                 data: PromotionPatch, productIds: Option<seq<Id>>): Option<ErrorCode>
    requires KeysUnique(users, UserId)
  {
    if !Admits(session, users) then Some(IsAdmin(session, users).code) else PatchRejection(promos, prods, id, data, productIds)
  }

  method CheckUpdate(promos: seq<Promotion>, prods: seq<Product>, id: Id, data: PromotionPatch, productIds: Option<seq<Id>>) returns (e: Option<ErrorCode>)
    requires KeysUnique(promos, PromotionId)
    ensures e == PatchRejection(promos, prods, id, data, productIds)
  {
    if !ValidPromotionPatch(data) {
      return Some(BadRequest);
    }
    var found := FindFirst(promos, PromotionId, id);
    if found.None? {
      return Some(NotFound);
    }
    var i := found.value;
    KeyLocates(promos, PromotionId, i);
    if data.code.Set? && Truthy(data.code.value) && data.code.value != promos[i].code
       && FindFirst(promos, PromotionCode, data.code.value).Some? {
      return Some(Conflict);
    }
    if data.code.Set? && data.code.value.Some? {
      var other := FindFirst(promos, (q: Promotion) => (q.code, q.id == id), (data.code.value, false));
      if other.Some? {
        var k := other.value;
        assert promos[k].code == data.code.value && promos[k].id != id;
        return Some(InternalError);
      }
      assert !CodeHeldByOther(promos, id, data.code.value) by {
        forall k | 0 <= k < |promos| && promos[k].code == data.code.value ensures promos[k].id == id {
          assert (promos[k].code, promos[k].id == id) != (data.code.value, false);
        }
      }
    }
    if productIds.Some? && LinksRefused(prods, productIds.value) {
      return Some(InternalError);
    }
    return None;
  }

  /** No other promotion holds a promotion's own code. */
  lemma OwnCodeFree(promos: seq<Promotion>, nextId: Id, i: nat)
    requires PromotionsValid(promos, nextId) && i < |promos| && promos[i].code.Some?
    ensures !CodeHeldByOther(promos, promos[i].id, promos[i].code)
  {
    forall k | 0 <= k < |promos| && promos[k].code == promos[i].code ensures promos[k].id == promos[i].id {
    }
  }

  /** Replacing an existing promotion's links by an accepted batch keeps the link table
      valid. */
  lemma ReplaceLinksKeepValid(promos: seq<Promotion>, prods: seq<Product>, links: seq<ProductPromotion>, id: Id, productIds: seq<Id>)
    requires LinksValid(links, promos, prods) && HasKey(promos, PromotionId, id) && !LinksRefused(prods, productIds)
    ensures LinksValid(ReplaceLinks(links, id, productIds), promos, prods)
  {
    var kept := Unlink(links, id);
    var added := LinksFor(id, productIds);
    var all := kept + added;
    var keep := (l: ProductPromotion) => l.promotionId != id;
    assert kept == Filter(links, keep);
    FilterKeysUnique(links, keep, LinkKey);
    LinksAccepted(prods, id, productIds);
    ConcatKeysUnique(kept, added, LinkKey);
    forall l: ProductPromotion | l in all ensures HasKey(promos, PromotionId, l.promotionId) && HasKey(prods, ProductId, l.productId) {
      if l in kept {
        assert l in links;
      } else {
        assert l in added;
      }
    }
  }

  /** Patching a promotion in place, with its own id and a code no other promotion holds,
      and replacing its links keeps the promotion and link tables valid. */
  lemma ReplaceKeepsValid(promos: seq<Promotion>, prods: seq<Product>, links: seq<ProductPromotion>, nextId: Id, i: nat, q: Promotion,
                          productIds: Option<seq<Id>>)
    requires PromotionsValid(promos, nextId) && LinksValid(links, promos, prods) && i < |promos|
    requires q.id == promos[i].id
    requires q.code.Some? ==> !CodeHeldByOther(promos, q.id, q.code)
    requires productIds.Some? ==> !LinksRefused(prods, productIds.value)
    ensures PromotionsValid(promos[i := q], nextId)
    ensures LinksValid(LinksAfterUpdate(links, q.id, productIds), promos[i := q], prods)
  {
    var after := promos[i := q];
    KeysReplace(promos, PromotionId, i, q);
    if productIds.Some? {
      assert PromotionId(promos[i]) == q.id;
      ReplaceLinksKeepValid(promos, prods, links, q.id, productIds.value);
    }
    var result := LinksAfterUpdate(links, q.id, productIds);
    forall l | l in result ensures HasKey(after, PromotionId, l.promotionId) {
    }
    forall a, b | 0 <= a < b < |after| && after[a].code.Some? ensures after[a].code != after[b].code {
      if a == i {
        assert promos[b].id != q.id;
      } else if b == i {
        assert promos[a].id != q.id;
      } else {
        assert after[a] == promos[a] && after[b] == promos[b];
      }
    }
    assert PromotionId(after[i]) == q.id;
  }

  /** `update`: after the admin guard and the schema, NOT_FOUND when the promotion is
      missing and CONFLICT when a changed non-empty code is taken; otherwise only that
      promotion changes, and when product ids are supplied its links are replaced by one
      link per id in a single transaction. */
  method Update(db: Database, session: Option<Session>, id: Id, data: PromotionPatch, productIds: Option<seq<Id>>)
    returns (r: Result<Promotion>)
    requires db.Valid()
    modifies db
    ensures db.Valid()
    ensures r.Err? ==> Some(r.code) == UpdateRejection(old(db.promotions), old(db.products), old(db.users), session, id, data, productIds)
    ensures r.Ok? ==> UpdateRejection(old(db.promotions), old(db.products), old(db.users), session, id, data, productIds) == None
    ensures r.Err? ==> unchanged(db)
    ensures r.Ok? ==> r.value.id == id && r.value in db.promotions && |db.promotions| == |old(db.promotions)|
    ensures r.Ok? ==> forall k :: 0 <= k < |db.promotions| ==>
      db.promotions[k] == if old(db.promotions[k]).id == id then Patched(old(db.promotions[k]), data) else old(db.promotions[k])
    ensures r.Ok? ==> db.links == LinksAfterUpdate(old(db.links), id, productIds)
    ensures db.nextId == old(db.nextId)
    ensures db.categories == old(db.categories) && db.products == old(db.products) && db.users == old(db.users)
  {
    var guard := IsAdmin(session, db.users);
    if guard.Err? {
      return Err(guard.code);
    }
    var rejection := CheckUpdate(db.promotions, db.products, id, data, productIds);
    if rejection.Some? {
      return Err(rejection.value);
    }
    var i := FindFirst(db.promotions, PromotionId, id).value;
    KeyLocates(db.promotions, PromotionId, i);
    var q := Patched(db.promotions[i], data);
    Rewrite(db, i, q, data.code.Keep?, productIds);
    assert db.promotions[i] == q;
    r := Ok(q);
  }

  /** The write of `update`: the promotion at `i` becomes `q`, which keeps its id and takes a
      code no other promotion holds, and its links follow `productIds`. */
  method Rewrite(db: Database, i: nat, q: Promotion, codeKept: bool, productIds: Option<seq<Id>>)
    requires db.Valid() && i < |db.promotions| && q.id == db.promotions[i].id
    requires codeKept ==> q.code == db.promotions[i].code
    requires !codeKept && q.code.Some? ==> !CodeHeldByOther(db.promotions, q.id, q.code)
    requires productIds.Some? ==> !LinksRefused(db.products, productIds.value)
    modifies db
    ensures db.Valid()
    ensures db.promotions == old(db.promotions)[i := q]
    ensures db.links == LinksAfterUpdate(old(db.links), q.id, productIds)
    ensures db.nextId == old(db.nextId)
    ensures db.categories == old(db.categories) && db.products == old(db.products) && db.users == old(db.users)
  {
    if codeKept && q.code.Some? {
      OwnCodeFree(db.promotions, db.nextId, i);
    }
    ReplaceKeepsValid(db.promotions, db.products, db.links, db.nextId, i, q, productIds);
    db.promotions, db.links := db.promotions[i := q], LinksAfterUpdate(db.links, q.id, productIds);
  }

  // ----- delete -----

  /** Removing a promotion together with its links keeps the promotion and link tables
      valid. */
  lemma RemoveKeepsValid(promos: seq<Promotion>, prods: seq<Product>, links: seq<ProductPromotion>, nextId: Id, i: nat)
    requires PromotionsValid(promos, nextId) && LinksValid(links, promos, prods) && i < |promos|
    ensures PromotionsValid(RemoveAt(promos, i), nextId)
    ensures LinksValid(Unlink(links, promos[i].id), RemoveAt(promos, i), prods)
  {
    var after := RemoveAt(promos, i);
    KeysRemove(promos, PromotionId, i);
    var keep := (l: ProductPromotion) => l.promotionId != promos[i].id;
    assert Unlink(links, promos[i].id) == Filter(links, keep);
    FilterKeysUnique(links, keep, LinkKey);
    forall a, b | 0 <= a < b < |after| && after[a].code.Some? ensures after[a].code != after[b].code {
      var a' := if a < i then a else a + 1;
      var b' := if b < i then b else b + 1;
      assert after[a] == promos[a'] && after[b] == promos[b'];
    }
  }

  /** `delete`: after the admin guard, NOT_FOUND when the promotion is missing; otherwise
      the promotion and all its links are removed in one transaction. */
  method Delete(db: Database, session: Option<Session>, id: Id) returns (r: Result<()>)
    requires db.Valid()
    modifies db
    ensures db.Valid()
    ensures r.Err? <==> !Admits(session, old(db.users)) || !HasKey(old(db.promotions), PromotionId, id)
    ensures r.Err? ==> r.code == (if !Admits(session, old(db.users)) then IsAdmin(session, old(db.users)).code else NotFound)
    ensures r.Err? ==> unchanged(db)
    ensures r.Ok? ==> forall q :: q in db.promotions <==> q in old(db.promotions) && q.id != id
    ensures r.Ok? ==> |db.promotions| == |old(db.promotions)| - 1
    ensures r.Ok? ==> db.links == Unlink(old(db.links), id)
    ensures db.nextId == old(db.nextId)
    ensures db.categories == old(db.categories) && db.products == old(db.products) && db.users == old(db.users)
  {
    var guard := IsAdmin(session, db.users);
    if guard.Err? {
      return Err(guard.code);
    }
    var found := FindFirst(db.promotions, PromotionId, id);
    if found.None? {
      return Err(NotFound);
    }
    var i := found.value;
    ghost var promos := db.promotions;
    KeyLocates(promos, PromotionId, i);
    RemoveKeepsValid(promos, db.products, db.links, db.nextId, i);
    db.links := Unlink(db.links, id);
    db.promotions := RemoveAt(db.promotions, i);
    assert db.promotions == promos[..i] + promos[i + 1..];
    r := Ok(());
  }
}
