/** The public product procedures: the filtered, paginated listing and the lookups by id
    and by slug. */
module ProductRouter {
  import opened Outcomes
  import opened Entities
  import opened Tables
  import opened Schemas
  import opened Store
  import opened Text

  // ----- getAll -----

  /** The input of `getAll`: pagination, a search term and the optional filters. Prices are
      integer cents. */
  datatype ListInput = ListInput(
    page: Option<int>,
    limit: Option<int>,
    search: Option<string>,
    categoryId: Option<Id>,
    isActive: Option<bool>,
    featured: Option<bool>,
    minPrice: Option<int>,
    maxPrice: Option<int>,
    tags: Option<seq<string>>,
    regionCode: Option<string>)

  datatype PriceFilter = PriceFilter(gte: Option<int>, lte: Option<int>)

  /** The `where` object `getAll` builds; an absent field imposes nothing. */
  datatype Where = Where(
    search: Option<string>,
    categoryId: Option<Id>,
    isActive: Option<bool>,
    isFeatured: Option<bool>,
    price: Option<PriceFilter>,
    tagsHasSome: Option<seq<string>>,
    regionCodesHas: Option<string>)

  /** The `where` object, one field per input that passes its guard: a non-empty search
      term, a category, an `isActive` that is given, a `featured` that is true, either price
      bound, a non-empty tag list and a non-empty region code. */
  function BuildWhere(input: ListInput): Where {
    Where(
      if Truthy(input.search) then input.search else None,
      input.categoryId,
      input.isActive,
      if input.featured == Some(true) then Some(true) else None,
      if input.minPrice.Some? || input.maxPrice.Some? then Some(PriceFilter(input.minPrice, input.maxPrice)) else None,
      if input.tags.Some? && |input.tags.value| > 0 then input.tags else None,
      if Truthy(input.regionCode) then input.regionCode else None)
  }

  /** The search term matches the name or the description case-insensitively, or one of
      the tags exactly. */
  predicate SearchHit(p: Product, term: string) {
    ContainsInsensitive(p.name, term) || ContainsInsensitive(p.description, term) || term in p.tags
  }

  /** How the store evaluates the `where` object against one row: every present field must
      hold. */
  predicate Satisfies(p: Product, w: Where) {
    (w.search.Some? ==> SearchHit(p, w.search.value)) &&
    (w.categoryId.Some? ==> p.categoryId == w.categoryId) &&
    (w.isActive.Some? ==> p.isActive == w.isActive.value) &&
    (w.isFeatured.Some? ==> p.isFeatured == w.isFeatured.value) &&
    (w.price.Some? ==> (w.price.value.gte.Some? ==> p.price >= w.price.value.gte.value) &&
                       (w.price.value.lte.Some? ==> p.price <= w.price.value.lte.value)) &&
    (w.tagsHasSome.Some? ==> exists t :: t in w.tagsHasSome.value && t in p.tags) &&
    (w.regionCodesHas.Some? ==> w.regionCodesHas.value in p.regionCodes)
  }

  /** The filters as the listing promises them, stated on the input itself. */
  predicate Selected(p: Product, input: ListInput) {
    (input.search.Some? && input.search.value != "" ==> SearchHit(p, input.search.value)) &&
    (input.categoryId.Some? ==> p.categoryId == input.categoryId) &&
    (input.isActive.Some? ==> p.isActive == input.isActive.value) &&
    (input.featured == Some(true) ==> p.isFeatured) &&
    (input.minPrice.Some? ==> input.minPrice.value <= p.price) &&
    (input.maxPrice.Some? ==> p.price <= input.maxPrice.value) &&
    (input.tags.Some? && input.tags.value != [] ==> exists t :: t in input.tags.value && t in p.tags) &&
    (input.regionCode.Some? && input.regionCode.value != "" ==> input.regionCode.value in p.regionCodes)
  }

  /** The `where` object selects exactly the products the filters describe. */
  lemma WhereMeaning(p: Product, input: ListInput)
    ensures Satisfies(p, BuildWhere(input)) <==> Selected(p, input)
  {
  }

  /** `featured: false` filters nothing: it selects the same products as no `featured`. */
  lemma FeaturedFalseSelectsAll(p: Product, input: ListInput)
    ensures Selected(p, input.(featured := Some(false))) <==> Selected(p, input.(featured := None))
  {
  }

  function Matching(prods: seq<Product>, w: Where): (r: seq<Product>)
    ensures forall p :: p in r <==> p in prods && Satisfies(p, w)
  {
    Filter(prods, (p: Product) => Satisfies(p, w))
  }

  function NewerFirst(a: Product, b: Product): bool {
    a.createdAt >= b.createdAt
  }

  lemma NewerFirstOrders()
    ensures TotalPreorder(NewerFirst)
  {
  }

  /** `orderBy: { createdAt: 'desc' }`. */
  function NewestFirst(s: seq<Product>): (r: seq<Product>)
    ensures |r| == |s| && multiset(r) == multiset(s)
    ensures forall i, j :: 0 <= i < j < |r| ==> r[i].createdAt >= r[j].createdAt
  {
    NewerFirstOrders();
    var r := SortBy(s, NewerFirst);
    assert |r| == |multiset(r)|;
    assert forall i, j :: 0 <= i < j < |r| ==> NewerFirst(r[i], r[j]);
    r
  }

  /** `Math.ceil(n / d)` for a positive divisor: the least number of `d`-sized pages that
      hold `n` items. */
  function CeilDiv(n: nat, d: nat): (r: nat)
    requires d > 0
    ensures r * d >= n
    ensures r == 0 || (r - 1) * d < n
  {
    var r := (n + d - 1) / d;
    assert r * d + (n + d - 1) % d == n + d - 1;
    r
  }

  /** A product with its category (`include: { category: true }`). */
  datatype ProductWithCategory = ProductWithCategory(product: Product, category: Option<Category>)

  function WithCategory(cats: seq<Category>, p: Product): (r: ProductWithCategory)
    ensures r.product == p
    ensures r.category.Some? ==> r.category.value in cats && p.categoryId == Some(r.category.value.id)
    ensures p.categoryId.Some? && HasKey(cats, CategoryId, p.categoryId.value) ==> r.category.Some?
  {
    match p.categoryId
    case None => ProductWithCategory(p, None)
    case Some(cid) => match FindFirst(cats, CategoryId, cid)
      case None => ProductWithCategory(p, None)
      case Some(k) => ProductWithCategory(p, Some(cats[k]))
  }

  function WithCategories(cats: seq<Category>, ps: seq<Product>): (r: seq<ProductWithCategory>)
    ensures |r| == |ps|
    ensures forall k :: 0 <= k < |r| ==> r[k] == WithCategory(cats, ps[k])
  {
    if ps == [] then [] else [WithCategory(cats, ps[0])] + WithCategories(cats, ps[1..])
  }

  datatype ProductPage = ProductPage(products: seq<ProductWithCategory>, total: nat, pages: nat, currentPage: int)

  /** `skip = (page - 1) * limit`: negative exactly when the page is below 1. */
  function Skip(page: int, limit: int): (r: int)
    requires limit >= 1
    ensures r < 0 <==> page < 1
  {
    (page - 1) * limit
  }

  /** One page of the matching products, newest first, `limit` of them from `skip` on. */
  function Page(prods: seq<Product>, cats: seq<Category>, w: Where, skip: nat, limit: nat): (r: seq<ProductWithCategory>)
    ensures var n := |Matching(prods, w)|;
      |r| == if skip >= n then 0 else if skip + limit <= n then limit else n - skip
    ensures forall k :: 0 <= k < |r| ==>
      (skip + k < |Matching(prods, w)| && r[k] == WithCategory(cats, NewestFirst(Matching(prods, w))[skip + k]))
  {
    WithCategories(cats, Window(NewestFirst(Matching(prods, w)), skip, limit))
  }

  /** `getAll`: a limit outside [1, 100] is BAD_REQUEST; a page below 1 gives a negative
      `skip`, which the store refuses. Otherwise one page of the matching products, newest
      first, with the total number of matches and the number of pages. */
  function GetAll(prods: seq<Product>, cats: seq<Category>, input: ListInput): (r: Result<ProductPage>)
    ensures ParsePagination(input.page, input.limit).Err? ==> r == Err(BadRequest)
    ensures ParsePagination(input.page, input.limit).Ok? ==>
      (r.Err? <==> ParsePagination(input.page, input.limit).value.page < 1) && (r.Err? ==> r.code == InternalError)
    ensures r.Ok? ==> |r.value.products| <= ParsePagination(input.page, input.limit).value.limit
    ensures r.Ok? ==> r.value.currentPage == ParsePagination(input.page, input.limit).value.page
    ensures r.Ok? ==> r.value.total == |Matching(prods, BuildWhere(input))|
    ensures r.Ok? ==> r.value.pages == CeilDiv(r.value.total, ParsePagination(input.page, input.limit).value.limit)
  {
    match ParsePagination(input.page, input.limit)
    case Err(code) => Err(code)
    case Ok(pg) =>
      var skip := Skip(pg.page, pg.limit);
      if skip < 0 then Err(InternalError)
      else
        var total := |Matching(prods, BuildWhere(input))|;
        Ok(ProductPage(Page(prods, cats, BuildWhere(input), skip, pg.limit), total, CeilDiv(total, pg.limit), pg.page))
  }

  /** A page holds products of the table that satisfy the `where` object. */
  lemma PageSelects(prods: seq<Product>, cats: seq<Category>, w: Where, skip: nat, limit: nat)
    ensures var page := Page(prods, cats, w, skip, limit);
      forall k :: 0 <= k < |page| ==> page[k].product in prods && Satisfies(page[k].product, w)
  {
    var page := Page(prods, cats, w, skip, limit);
    var sorted := NewestFirst(Matching(prods, w));
    forall k | 0 <= k < |page|
      ensures page[k].product in prods && Satisfies(page[k].product, w)
    {
      assert page[k].product == sorted[skip + k];
      assert sorted[skip + k] in multiset(sorted);
    }
  }

  /** A page lists its products newest first. */
  lemma PageNewestFirst(prods: seq<Product>, cats: seq<Category>, w: Where, skip: nat, limit: nat)
    ensures var page := Page(prods, cats, w, skip, limit);
      forall i, j :: 0 <= i < j < |page| ==> page[i].product.createdAt >= page[j].product.createdAt
  {
    var page := Page(prods, cats, w, skip, limit);
    var sorted := NewestFirst(Matching(prods, w));
    forall i, j | 0 <= i < j < |page|
      ensures page[i].product.createdAt >= page[j].product.createdAt
    {
      assert page[i].product == sorted[skip + i];
      assert page[j].product == sorted[skip + j];
    }
  }

  /** A successful `getAll` returns the page that starts at `Skip(page, limit)`. */
  lemma GetAllIsPage(prods: seq<Product>, cats: seq<Category>, input: ListInput)
    ensures var r := GetAll(prods, cats, input);
      var pg := ParsePagination(input.page, input.limit);
      r.Ok? ==> (pg.Ok? && pg.value.page >= 1 &&
        r.value.products == Page(prods, cats, BuildWhere(input), Skip(pg.value.page, pg.value.limit), pg.value.limit))
  {
  }

  /** Every listed product is a product of the table that passes every given filter. */
  lemma GetAllSelects(prods: seq<Product>, cats: seq<Category>, input: ListInput)
    ensures var r := GetAll(prods, cats, input);
      r.Ok? ==> forall k :: 0 <= k < |r.value.products| ==>
        r.value.products[k].product in prods && Selected(r.value.products[k].product, input)
  {
    var r := GetAll(prods, cats, input);
    if r.Ok? {
      GetAllIsPage(prods, cats, input);
      var pg := ParsePagination(input.page, input.limit).value;
      PageSelects(prods, cats, BuildWhere(input), Skip(pg.page, pg.limit), pg.limit);
      forall k | 0 <= k < |r.value.products|
        ensures r.value.products[k].product in prods && Selected(r.value.products[k].product, input)
      {
        WhereMeaning(r.value.products[k].product, input);
      }
    }
  }

  /** A page lists the newest products first. */
  lemma GetAllNewestFirst(prods: seq<Product>, cats: seq<Category>, input: ListInput)
    ensures var r := GetAll(prods, cats, input);
      r.Ok? ==> forall i, j :: 0 <= i < j < |r.value.products| ==>
        r.value.products[i].product.createdAt >= r.value.products[j].product.createdAt
  {
    var r := GetAll(prods, cats, input);
    if r.Ok? {
      GetAllIsPage(prods, cats, input);
      var pg := ParsePagination(input.page, input.limit).value;
      PageNewestFirst(prods, cats, BuildWhere(input), Skip(pg.page, pg.limit), pg.limit);
    }
  }

  /** The total and the number of pages do not depend on the page asked for. */
  lemma TotalIgnoresPage(prods: seq<Product>, cats: seq<Category>, input: ListInput, other: int)
    requires input.limit.None? || 1 <= input.limit.value <= 100
    requires input.page.None? || input.page.value >= 1
    requires other >= 1
    ensures GetAll(prods, cats, input).Ok? && GetAll(prods, cats, input.(page := Some(other))).Ok?
    ensures GetAll(prods, cats, input.(page := Some(other))).value.total == GetAll(prods, cats, input).value.total
    ensures GetAll(prods, cats, input.(page := Some(other))).value.pages == GetAll(prods, cats, input).value.pages
  {
    assert BuildWhere(input.(page := Some(other))) == BuildWhere(input);
  }

  lemma {:induction false} MulMonotone(a: nat, b: nat, c: nat)
    requires a <= b
    ensures a * c <= b * c
  {
    if a < b {
      MulMonotone(a, b - 1, c);
      assert b * c == (b - 1) * c + c;
    }
  }

  /** Division with remainder, by repeated subtraction. */
  lemma {:induction false} Locate(i: nat, limit: nat) returns (q: nat, k: nat)
    requires limit >= 1
    ensures q * limit + k == i && k < limit
  {
    if i < limit {
      q, k := 0, i;
    } else {
      var q', k' := Locate(i - limit, limit);
      q, k := q' + 1, k';
      assert q * limit == q' * limit + limit;
    }
  }

  /** The page that holds the `i`-th match, counting from 0, and its position there. */
  lemma PageOfIndex(i: nat, limit: nat, total: nat) returns (q: int, k: nat)
    requires limit >= 1 && i < total
    ensures 1 <= q <= CeilDiv(total, limit)
    ensures Skip(q, limit) + k == i && k < limit
  {
    var q0, k0 := Locate(i, limit);
    q, k := q0 + 1, k0;
    var pages := CeilDiv(total, limit);
    if pages <= q0 {
      MulMonotone(pages, q0, limit);
    }
  }

  /** With a valid limit, page `q` (from 1 on) of `getAll` is `Page` from `Skip(q, limit)`. */
  lemma GetAllOnPage(prods: seq<Product>, cats: seq<Category>, input: ListInput, q: int)
    requires input.limit.None? || 1 <= input.limit.value <= 100
    requires q >= 1
    ensures var limit := ParsePagination(input.page, input.limit).value.limit;
      var m := |Matching(prods, BuildWhere(input))|;
      GetAll(prods, cats, input.(page := Some(q))) ==
        Ok(ProductPage(Page(prods, cats, BuildWhere(input), Skip(q, limit), limit), m, CeilDiv(m, limit), q))
  {
    assert BuildWhere(input.(page := Some(q))) == BuildWhere(input);
  }

  /** A product of the table that passes the filters has a place in the sorted matches. */
  lemma PlaceOfMatch(prods: seq<Product>, input: ListInput, p: Product) returns (i: nat)
    requires p in prods && Selected(p, input)
    ensures i < |NewestFirst(Matching(prods, BuildWhere(input)))|
    ensures NewestFirst(Matching(prods, BuildWhere(input)))[i] == p
  {
    WhereMeaning(p, input);
    var matched := Matching(prods, BuildWhere(input));
    var sorted := NewestFirst(matched);
    assert p in sorted by {
      assert p in multiset(matched);
    }
    i :| 0 <= i < |sorted| && sorted[i] == p;
  }

  /** Position `k` of a page starting at `skip` holds the `skip + k`-th sorted match. */
  lemma PageHolds(prods: seq<Product>, cats: seq<Category>, w: Where, skip: nat, limit: nat, k: nat)
    requires k < limit && skip + k < |Matching(prods, w)|
    ensures k < |Page(prods, cats, w, skip, limit)|
    ensures Page(prods, cats, w, skip, limit)[k].product == NewestFirst(Matching(prods, w))[skip + k]
  {
  }

  /** Page `q` of `getAll` exists, is within the page count and lists `p`. */
  predicate ListedOn(prods: seq<Product>, cats: seq<Category>, input: ListInput, q: int, p: Product) {
    var r := GetAll(prods, cats, input.(page := Some(q)));
    1 <= q && r.Ok? && q <= r.value.pages &&
    exists k :: 0 <= k < |r.value.products| && r.value.products[k].product == p
  }

  /** A product at position `k` of page `q`, within the page count, is listed on that page. */
  lemma ListedOnPage(prods: seq<Product>, cats: seq<Category>, input: ListInput, p: Product, q: int, k: nat)
    requires input.limit.None? || 1 <= input.limit.value <= 100
    requires var limit := ParsePagination(input.page, input.limit).value.limit;
      var w := BuildWhere(input);
      1 <= q <= CeilDiv(|Matching(prods, w)|, limit) && k < |Page(prods, cats, w, Skip(q, limit), limit)| &&
      Page(prods, cats, w, Skip(q, limit), limit)[k].product == p
    ensures ListedOn(prods, cats, input, q, p)
  {
    GetAllOnPage(prods, cats, input, q);
    assert GetAll(prods, cats, input.(page := Some(q))).value.products[k].product == p;
  }

  /** The `i`-th sorted match is listed on some page. */
  lemma PageOfMatch(prods: seq<Product>, cats: seq<Category>, input: ListInput, i: nat) returns (q: int)
    requires input.limit.None? || 1 <= input.limit.value <= 100
    requires i < |NewestFirst(Matching(prods, BuildWhere(input)))|
    ensures ListedOn(prods, cats, input, q, NewestFirst(Matching(prods, BuildWhere(input)))[i])
  {
    var limit := ParsePagination(input.page, input.limit).value.limit;
    var k;
    q, k := PageOfIndex(i, limit, |NewestFirst(Matching(prods, BuildWhere(input)))|);
    PageHolds(prods, cats, BuildWhere(input), Skip(q, limit), limit, k);
    ListedOnPage(prods, cats, input, NewestFirst(Matching(prods, BuildWhere(input)))[i], q, k);
  }

  /** Paging reaches every match: with a valid limit, each matching product is listed on
      some page between 1 and the number of pages. */
  lemma EveryMatchIsListed(prods: seq<Product>, cats: seq<Category>, input: ListInput, p: Product)
    requires input.limit.None? || 1 <= input.limit.value <= 100
    requires p in prods && Selected(p, input)
    ensures exists q :: ListedOn(prods, cats, input, q, p)
  {
    var i := PlaceOfMatch(prods, input, p);
    var q := PageOfMatch(prods, cats, input, i);
  }

  // ----- getById / getBySlug -----

  /** A product as `getById` and `getBySlug` return it: with its category and the promotions
      it is linked to. */
  datatype ProductDetail = ProductDetail(product: Product, category: Option<Category>, promotions: seq<Promotion>)

  function Detail(cats: seq<Category>, promos: seq<Promotion>, links: seq<ProductPromotion>, p: Product): (d: ProductDetail)
    ensures d.product == p
    ensures d.category.Some? ==> d.category.value in cats && p.categoryId == Some(d.category.value.id)
    ensures p.categoryId.Some? && HasKey(cats, CategoryId, p.categoryId.value) ==> d.category.Some?
    ensures d.promotions == LinkedPromotions(links, promos, p.id)
  {
    ProductDetail(p, WithCategory(cats, p).category, LinkedPromotions(links, promos, p.id))
  }

  /** `getById`: NOT_FOUND when no product has the id. */
  function GetById(prods: seq<Product>, cats: seq<Category>, promos: seq<Promotion>, links: seq<ProductPromotion>, id: Id): (r: Result<ProductDetail>)
    ensures r.Err? <==> !HasKey(prods, ProductId, id)
    ensures r.Err? ==> r.code == NotFound
    ensures r.Ok? ==> r.value.product in prods && r.value.product.id == id
    ensures r.Ok? ==> r.value == Detail(cats, promos, links, r.value.product)
  {
    match FindFirst(prods, ProductId, id)
    case None => Err(NotFound)
    case Some(k) => Ok(Detail(cats, promos, links, prods[k]))
  }

  /** `getBySlug`: NOT_FOUND when no product has the slug. */
  function GetBySlug(prods: seq<Product>, cats: seq<Category>, promos: seq<Promotion>, links: seq<ProductPromotion>, slug: string): (r: Result<ProductDetail>)
    ensures r.Err? <==> !HasKey(prods, ProductSlug, slug)
    ensures r.Err? ==> r.code == NotFound
    ensures r.Ok? ==> r.value.product in prods && r.value.product.slug == slug
    ensures r.Ok? ==> r.value == Detail(cats, promos, links, r.value.product)
  {
    match FindFirst(prods, ProductSlug, slug)
    case None => Err(NotFound)
    case Some(k) => Ok(Detail(cats, promos, links, prods[k]))
  }

  /** With unique promotion ids, the detail of a product lists every promotion it is linked
      to. */
  lemma DetailComplete(cats: seq<Category>, promos: seq<Promotion>, links: seq<ProductPromotion>, p: Product)
    requires KeysUnique(promos, PromotionId)
    ensures forall q :: q in promos && ProductPromotion(p.id, q.id) in links ==> q in Detail(cats, promos, links, p).promotions
  {
    forall q | q in promos && ProductPromotion(p.id, q.id) in links
      ensures q in Detail(cats, promos, links, p).promotions
    {
      LinkedPromotionsComplete(links, promos, p.id, q);
    }
  }

  /** With unique slugs, looking a product up by its slug finds the same product as looking
      it up by its id. */
  lemma SlugAndIdAgree(prods: seq<Product>, cats: seq<Category>, promos: seq<Promotion>, links: seq<ProductPromotion>, i: nat)
    requires KeysUnique(prods, ProductId) && KeysUnique(prods, ProductSlug) && i < |prods|
    ensures GetBySlug(prods, cats, promos, links, prods[i].slug) == GetById(prods, cats, promos, links, prods[i].id)
  {
    KeyLocates(prods, ProductId, i);
    KeyLocates(prods, ProductSlug, i);
  }
}
