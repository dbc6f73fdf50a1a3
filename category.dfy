/** The public category procedures: the listing, the lookups by id and by slug, and the
    navigation tree. */
module CategoryRouter {
  import opened Outcomes
  import opened Entities
  import opened Tables
  import opened Schemas
  import opened Store
  import opened CategoryTree

  function ByName(a: Category, b: Category): bool {
    LexLe(a.name, b.name)
  }

  lemma ByNameOrders()
    ensures TotalPreorder(ByName)
  {
    forall a: Category, b: Category ensures ByName(a, b) || ByName(b, a) {
      LexTotal(a.name, b.name);
    }
    forall a: Category, b: Category, c: Category | ByName(a, b) && ByName(b, c) ensures ByName(a, c) {
      LexTransitive(a.name, b.name, c.name);
    }
  }

  /** The categories sorted by name (`orderBy: { name: 'asc' }`). */
  function OrderByName(s: seq<Category>): (r: seq<Category>)
    ensures forall c :: c in r <==> c in s
    ensures forall i, j :: 0 <= i < j < |r| ==> LexLe(r[i].name, r[j].name)
  {
    ByNameOrders();
    SortKeepsRows(s, ByName);
    var r := SortBy(s, ByName);
    assert forall i, j :: 0 <= i < j < |r| ==> ByName(r[i], r[j]);
    r
  }

  /** A category as `getAll` returns it: with all its direct children, and with its products
      when they were asked for. */
  datatype CategoryListing = CategoryListing(category: Category, children: seq<Category>, products: Option<seq<Product>>)

  function Listing(cats: seq<Category>, prods: seq<Product>, c: Category, includeProducts: bool): CategoryListing {
    CategoryListing(c,
      Filter(cats, (x: Category) => x.parentId == Some(c.id)),
      if includeProducts then Some(Filter(prods, (p: Product) => p.categoryId == Some(c.id))) else None)
  }

  /** A listed category carries exactly its direct children (active or not) and, when asked
      for, exactly its products. */
  lemma ListingContents(cats: seq<Category>, prods: seq<Product>, c: Category, includeProducts: bool)
    ensures forall x :: x in Listing(cats, prods, c, includeProducts).children <==> x in cats && x.parentId == Some(c.id)
    ensures Listing(cats, prods, c, includeProducts).products.Some? <==> includeProducts
    ensures includeProducts ==>
      forall p :: p in Listing(cats, prods, c, includeProducts).products.value <==> p in prods && p.categoryId == Some(c.id)
  {
  }

  /** The categories `getAll` selects: the active ones, or all of them. */
  function Visible(cats: seq<Category>, includeInactive: bool): (r: seq<Category>)
    ensures forall c :: c in r <==> c in cats && (includeInactive || c.isActive)
  {
    Filter(cats, (c: Category) => includeInactive || c.isActive)
  }

  function Listings(cats: seq<Category>, prods: seq<Product>, s: seq<Category>, includeProducts: bool): (r: seq<CategoryListing>)
    ensures |r| == |s|
    ensures forall i :: 0 <= i < |r| ==> r[i].category == s[i]
    ensures forall i :: 0 <= i < |r| ==> r[i] == Listing(cats, prods, s[i], includeProducts)
  {
    if s == [] then [] else [Listing(cats, prods, s[0], includeProducts)] + Listings(cats, prods, s[1..], includeProducts)
  }

  /** `getAll`: the categories `Visible` selects, by name, each as `Listing` describes it. */
  function GetAll(cats: seq<Category>, prods: seq<Product>, includeInactive: Option<bool>, includeProducts: Option<bool>): (r: seq<CategoryListing>)
    ensures forall i, j :: 0 <= i < j < |r| ==> LexLe(r[i].category.name, r[j].category.name)
    ensures forall i :: 0 <= i < |r| ==> r[i] == Listing(cats, prods, r[i].category, includeProducts == Some(true))
  {
    Listings(cats, prods, OrderByName(Visible(cats, IncludeInactive(includeInactive))), includeProducts == Some(true))
  }

  /** `getAll` lists only categories of the table, and inactive ones only when asked to. */
  lemma GetAllSelects(cats: seq<Category>, prods: seq<Product>, includeInactive: Option<bool>, includeProducts: Option<bool>)
    ensures var r := GetAll(cats, prods, includeInactive, includeProducts);
      forall i :: 0 <= i < |r| ==> r[i].category in cats && (IncludeInactive(includeInactive) || r[i].category.isActive)
  {
    var sorted := OrderByName(Visible(cats, IncludeInactive(includeInactive)));
    var r := GetAll(cats, prods, includeInactive, includeProducts);
    assert r == Listings(cats, prods, sorted, includeProducts == Some(true));
    forall i | 0 <= i < |r|
      ensures r[i].category in cats && (IncludeInactive(includeInactive) || r[i].category.isActive)
    {
      assert r[i].category == sorted[i] && sorted[i] in sorted;
    }
  }

  /** `getAll` lists every active category, and every inactive one when asked to. */
  lemma GetAllComplete(cats: seq<Category>, prods: seq<Product>, includeInactive: Option<bool>, includeProducts: Option<bool>)
    ensures var r := GetAll(cats, prods, includeInactive, includeProducts);
      forall c :: c in cats && (IncludeInactive(includeInactive) || c.isActive) ==> exists i :: 0 <= i < |r| && r[i].category == c
  {
    var sorted := OrderByName(Visible(cats, IncludeInactive(includeInactive)));
    var r := GetAll(cats, prods, includeInactive, includeProducts);
    assert r == Listings(cats, prods, sorted, includeProducts == Some(true));
    forall c | c in cats && (IncludeInactive(includeInactive) || c.isActive)
      ensures exists i :: 0 <= i < |r| && r[i].category == c
    {
      assert c in sorted;
      var i :| 0 <= i < |sorted| && sorted[i] == c;
      assert r[i].category == c;
    }
  }

  /** A product with the promotions it is linked to. */
  datatype ProductWithPromotions = ProductWithPromotions(product: Product, promotions: seq<Promotion>)

  /** A category as `getById` and `getBySlug` return it: with its children, its parent and
      its active products, each with its linked promotions. */
  datatype CategoryDetail = CategoryDetail(
    category: Category,
    children: seq<Category>,
    parent: Option<Category>,
    products: seq<ProductWithPromotions>)

  /** The active products of a category, each with its linked promotions (the nested
      `products: { where: { isActive: true } }` include). */
  function ActiveProductsOf(prods: seq<Product>, promos: seq<Promotion>, links: seq<ProductPromotion>, categoryId: Id): (r: seq<ProductWithPromotions>)
    ensures forall i :: 0 <= i < |r| ==> r[i].product in prods && r[i].product.isActive && r[i].product.categoryId == Some(categoryId)
    ensures forall i :: 0 <= i < |r| ==> r[i].promotions == LinkedPromotions(links, promos, r[i].product.id)
  {
    var active := Filter(prods, (p: Product) => p.isActive && p.categoryId == Some(categoryId));
    var r := WithPromotions(promos, links, active);
    assert forall i :: 0 <= i < |r| ==> r[i].product == active[i] && active[i] in active;
    r
  }

  function WithPromotions(promos: seq<Promotion>, links: seq<ProductPromotion>, ps: seq<Product>): (r: seq<ProductWithPromotions>)
    ensures |r| == |ps|
    ensures forall i :: 0 <= i < |r| ==> r[i].product == ps[i] && r[i].promotions == LinkedPromotions(links, promos, ps[i].id)
  {
    if ps == [] then [] else [ProductWithPromotions(ps[0], LinkedPromotions(links, promos, ps[0].id))] + WithPromotions(promos, links, ps[1..])
  }

  /** Every active product of the category is listed. */
  lemma ActiveProductsComplete(prods: seq<Product>, promos: seq<Promotion>, links: seq<ProductPromotion>, categoryId: Id)
    ensures var r := ActiveProductsOf(prods, promos, links, categoryId);
      forall p :: p in prods && p.isActive && p.categoryId == Some(categoryId) ==> exists i :: 0 <= i < |r| && r[i].product == p
  {
    var active := Filter(prods, (p: Product) => p.isActive && p.categoryId == Some(categoryId));
    var r := ActiveProductsOf(prods, promos, links, categoryId);
    forall p | p in prods && p.isActive && p.categoryId == Some(categoryId)
      ensures exists i :: 0 <= i < |r| && r[i].product == p
    {
      var i :| 0 <= i < |active| && active[i] == p;
      assert r[i].product == p;
    }
  }

  function Detail(cats: seq<Category>, prods: seq<Product>, promos: seq<Promotion>, links: seq<ProductPromotion>, c: Category): (d: CategoryDetail)
    ensures d.category == c
    ensures forall x :: x in d.children <==> x in cats && x.parentId == Some(c.id)
    ensures d.parent.Some? ==> d.parent.value in cats && c.parentId == Some(d.parent.value.id)
    ensures c.parentId.Some? && HasKey(cats, CategoryId, c.parentId.value) ==> d.parent.Some?
    ensures d.products == ActiveProductsOf(prods, promos, links, c.id)
  {
    var parent := match c.parentId
      case None => None
      case Some(pid) => match FindFirst(cats, CategoryId, pid)
        case None => None
        case Some(k) => Some(cats[k]);
    CategoryDetail(c, Filter(cats, (x: Category) => x.parentId == Some(c.id)), parent, ActiveProductsOf(prods, promos, links, c.id))
  }

  /** `getById`: NOT_FOUND when no category has the id. */
  function GetById(cats: seq<Category>, prods: seq<Product>, promos: seq<Promotion>, links: seq<ProductPromotion>, id: Id): (r: Result<CategoryDetail>)
    ensures r.Err? <==> !HasKey(cats, CategoryId, id)
    ensures r.Err? ==> r.code == NotFound
    ensures r.Ok? ==> r.value.category in cats && r.value.category.id == id
    ensures r.Ok? ==> r.value.products == ActiveProductsOf(prods, promos, links, id)
    ensures r.Ok? ==> r.value == Detail(cats, prods, promos, links, r.value.category)
  {
    match FindFirst(cats, CategoryId, id)
    case None => Err(NotFound)
    case Some(k) => Ok(Detail(cats, prods, promos, links, cats[k]))
  }

  /** `getBySlug`: NOT_FOUND when no category has the slug. */
  function GetBySlug(cats: seq<Category>, prods: seq<Product>, promos: seq<Promotion>, links: seq<ProductPromotion>, slug: string): (r: Result<CategoryDetail>)
    ensures r.Err? <==> !HasKey(cats, CategorySlug, slug)
    ensures r.Err? ==> r.code == NotFound
    ensures r.Ok? ==> r.value.category in cats && r.value.category.slug == slug
    ensures r.Ok? ==> r.value.products == ActiveProductsOf(prods, promos, links, r.value.category.id)
    ensures r.Ok? ==> r.value == Detail(cats, prods, promos, links, r.value.category)
  {
    match FindFirst(cats, CategorySlug, slug)
    case None => Err(NotFound)
    case Some(k) => Ok(Detail(cats, prods, promos, links, cats[k]))
  }

  /** The navigation tree: three fixed levels and nothing deeper. */
  datatype NavChild = NavChild(category: Category, children: seq<Category>)
  datatype NavRoot = NavRoot(category: Category, children: seq<NavChild>)

  function ActiveChildren(cats: seq<Category>, id: Id): (r: seq<Category>)
    ensures forall x :: x in r <==> x in cats && x.isActive && x.parentId == Some(id)
  {
    Filter(cats, (x: Category) => x.isActive && x.parentId == Some(id))
  }

  function NavChildOf(cats: seq<Category>, c: Category): NavChild {
    NavChild(c, ActiveChildren(cats, c.id))
  }

  function NavRootOf(cats: seq<Category>, c: Category): (n: NavRoot)
    ensures n.category == c
  {
    var kids := ActiveChildren(cats, c.id);
    NavRoot(c, seq(|kids|, k requires 0 <= k < |kids| => NavChildOf(cats, kids[k])))
  }

  /** Below a navigation root come exactly its active children, and below each of those
      exactly its active children: two levels of active descendants. */
  lemma NavRootContents(cats: seq<Category>, c: Category)
    ensures forall k :: 0 <= k < |NavRootOf(cats, c).children| ==>
      var ch := NavRootOf(cats, c).children[k].category;
      ch in cats && ch.isActive && ch.parentId == Some(c.id)
    ensures forall x :: x in cats && x.isActive && x.parentId == Some(c.id) ==>
      exists k :: 0 <= k < |NavRootOf(cats, c).children| && NavRootOf(cats, c).children[k].category == x
    ensures forall k :: 0 <= k < |NavRootOf(cats, c).children| ==>
      forall g :: g in NavRootOf(cats, c).children[k].children <==>
        g in cats && g.isActive && g.parentId == Some(NavRootOf(cats, c).children[k].category.id)
  {
    var kids := ActiveChildren(cats, c.id);
    var n := NavRootOf(cats, c);
    assert |n.children| == |kids| && forall k :: 0 <= k < |kids| ==> n.children[k] == NavChildOf(cats, kids[k]);
    forall x | x in cats && x.isActive && x.parentId == Some(c.id)
      ensures exists k :: 0 <= k < |n.children| && n.children[k].category == x
    {
      var k :| 0 <= k < |kids| && kids[k] == x;
      assert n.children[k].category == x;
    }
  }

  function ActiveRoots(cats: seq<Category>): (r: seq<Category>)
    ensures forall c :: c in r <==> c in cats && c.isActive && c.parentId.None?
  {
    Filter(cats, (c: Category) => c.isActive && c.parentId.None?)
  }

  function NavRoots(cats: seq<Category>, roots: seq<Category>): (r: seq<NavRoot>)
    ensures |r| == |roots|
    ensures forall i :: 0 <= i < |r| ==> r[i].category == roots[i]
    ensures forall i :: 0 <= i < |r| ==> r[i] == NavRootOf(cats, roots[i])
  {
    if roots == [] then [] else [NavRootOf(cats, roots[0])] + NavRoots(cats, roots[1..])
  }

  /** `getNavigation`: the active root categories by name, each as `NavRootOf` builds it. */
  function GetNavigation(cats: seq<Category>): (r: seq<NavRoot>)
    ensures forall i, j :: 0 <= i < j < |r| ==> LexLe(r[i].category.name, r[j].category.name)
    ensures forall i :: 0 <= i < |r| ==> r[i] == NavRootOf(cats, r[i].category)
  {
    NavRoots(cats, OrderByName(ActiveRoots(cats)))
  }

  /** The navigation starts only from active categories without a parent. */
  lemma GetNavigationSelects(cats: seq<Category>)
    ensures var r := GetNavigation(cats);
      forall i :: 0 <= i < |r| ==> r[i].category in cats && r[i].category.isActive && r[i].category.parentId.None?
  {
    var sorted := OrderByName(ActiveRoots(cats));
    var r := GetNavigation(cats);
    assert r == NavRoots(cats, sorted);
    forall i | 0 <= i < |r|
      ensures r[i].category in cats && r[i].category.isActive && r[i].category.parentId.None?
    {
      assert r[i].category == sorted[i] && sorted[i] in sorted;
    }
  }

  /** The navigation starts from every active category without a parent. */
  lemma GetNavigationComplete(cats: seq<Category>)
    ensures var r := GetNavigation(cats);
      forall c :: c in cats && c.isActive && c.parentId.None? ==> exists i :: 0 <= i < |r| && r[i].category == c
  {
    var sorted := OrderByName(ActiveRoots(cats));
    var r := GetNavigation(cats);
    assert r == NavRoots(cats, sorted);
    forall c | c in cats && c.isActive && c.parentId.None?
      ensures exists i :: 0 <= i < |r| && r[i].category == c
    {
      assert c in sorted;
      var i :| 0 <= i < |sorted| && sorted[i] == c;
      assert r[i].category == c;
    }
  }
}
