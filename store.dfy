/** The relational store the procedures read and write, modelled as tables of rows held in
    storage order, with the unique and foreign-key constraints the procedures rely on. */
module Store {
  import opened Outcomes
  import opened Entities
  import opened Tables
  import CategoryTree

  /** Category table: ids and slugs unique, every parent exists, the tree is acyclic. */
  ghost predicate CategoriesValid(cats: seq<Category>, nextId: Id) {
    (forall i :: 0 <= i < |cats| ==> cats[i].id < nextId) &&
    KeysUnique(cats, CategoryId) && KeysUnique(cats, CategorySlug) &&
    (forall i :: 0 <= i < |cats| && cats[i].parentId.Some? ==> HasKey(cats, CategoryId, cats[i].parentId.value)) &&
    CategoryTree.Acyclic(cats)
  }

  /** Product table: ids and slugs unique, every category reference resolves. */
  ghost predicate ProductsValid(prods: seq<Product>, cats: seq<Category>, nextId: Id) {
    (forall i :: 0 <= i < |prods| ==> prods[i].id < nextId) &&
    KeysUnique(prods, ProductId) && KeysUnique(prods, ProductSlug) &&
    (forall i :: 0 <= i < |prods| && prods[i].categoryId.Some? ==> HasKey(cats, CategoryId, prods[i].categoryId.value))
  }

  /** Promotion table: ids unique, and no two promotions share a code. */
  ghost predicate PromotionsValid(promos: seq<Promotion>, nextId: Id) {
    (forall i :: 0 <= i < |promos| ==> promos[i].id < nextId) &&
    KeysUnique(promos, PromotionId) &&
    (forall i, j :: 0 <= i < j < |promos| && promos[i].code.Some? ==> promos[i].code != promos[j].code)
  }

  /** User table: ids and emails unique. */
  ghost predicate UsersValid(users: seq<User>, nextId: Id) {
    (forall i :: 0 <= i < |users| ==> users[i].id < nextId) &&
    KeysUnique(users, UserId) && KeysUnique(users, UserEmail)
  }

  /** Link table: every link names an existing promotion and an existing product (the
      foreign keys of its `promotion` and `product` relations), and no (product, promotion)
      pair occurs twice (the composite unique key `productId_promotionId`). */
  ghost predicate LinksValid(links: seq<ProductPromotion>, promos: seq<Promotion>, prods: seq<Product>) {
    (forall l :: l in links ==> HasKey(promos, PromotionId, l.promotionId) && HasKey(prods, ProductId, l.productId)) &&
    KeysUnique(links, LinkKey)
  }

  /** A product write that keeps every product some link names keeps the link table
      valid. */
  lemma LinksKeepProducts(links: seq<ProductPromotion>, promos: seq<Promotion>, prods: seq<Product>, after: seq<Product>)
    requires LinksValid(links, promos, prods)
    requires forall k :: HasKey(prods, ProductId, k) && HasKey(links, LinkProductId, k) ==> HasKey(after, ProductId, k)
    ensures LinksValid(links, promos, after)
  {
    forall l | l in links ensures HasKey(after, ProductId, l.productId) {
      var m :| 0 <= m < |links| && links[m] == l;
      assert LinkProductId(links[m]) == l.productId;
    }
  }

  /** Issuing a new id keeps the category and product tables valid. */
  lemma CatalogIdBumpKeepsValid(cats: seq<Category>, prods: seq<Product>, nextId: Id)
    requires CategoriesValid(cats, nextId) && ProductsValid(prods, cats, nextId)
    ensures CategoriesValid(cats, nextId + 1) && ProductsValid(prods, cats, nextId + 1)
  {
  }

  /** Issuing a new id keeps the promotion and user tables valid. */
  lemma IdBumpKeepsValid(promos: seq<Promotion>, users: seq<User>, nextId: Id)
    requires PromotionsValid(promos, nextId) && UsersValid(users, nextId)
    ensures PromotionsValid(promos, nextId + 1) && UsersValid(users, nextId + 1)
  {
  }

  /** The promotions linked to a product, one per link row in storage order (a nested
      `include: { promotions: { include: { promotion: true } } }`). */
  function LinkedPromotions(links: seq<ProductPromotion>, promos: seq<Promotion>, productId: Id): (r: seq<Promotion>)
    ensures forall q :: q in r ==> q in promos && ProductPromotion(productId, q.id) in links
  {
    if links == [] then []
    else
      var rest := LinkedPromotions(links[1..], promos, productId);
      if links[0].productId != productId then rest
      else match FindFirst(promos, PromotionId, links[0].promotionId)
        case None => rest
        case Some(k) => [promos[k]] + rest
  }

  /** The products linked to a promotion, one per link row in storage order. */
  function LinkedProducts(links: seq<ProductPromotion>, prods: seq<Product>, promotionId: Id): (r: seq<Product>)
    ensures forall p :: p in r ==> p in prods && ProductPromotion(p.id, promotionId) in links
  {
    if links == [] then []
    else
      var rest := LinkedProducts(links[1..], prods, promotionId);
      if links[0].promotionId != promotionId then rest
      else match FindFirst(prods, ProductId, links[0].productId)
        case None => rest
        case Some(k) => [prods[k]] + rest
  }

  /** With unique promotion ids, a link row always brings its promotion into the product's
      list. */
  lemma {:induction false} LinkedPromotionsComplete(links: seq<ProductPromotion>, promos: seq<Promotion>, productId: Id, q: Promotion)
    requires KeysUnique(promos, PromotionId) && q in promos && ProductPromotion(productId, q.id) in links
    ensures q in LinkedPromotions(links, promos, productId)
  {
    if links[0] == ProductPromotion(productId, q.id) {
      var k := FindFirst(promos, PromotionId, q.id).value;
      var m :| 0 <= m < |promos| && promos[m] == q;
      KeyLocates(promos, PromotionId, m);
      assert promos[k] == q;
    } else {
      assert ProductPromotion(productId, q.id) in links[1..] by {
        assert links == [links[0]] + links[1..];
      }
      LinkedPromotionsComplete(links[1..], promos, productId, q);
    }
  }

  /** With unique product ids, a link row always brings its product into the promotion's
      list. */
  lemma {:induction false} LinkedProductsComplete(links: seq<ProductPromotion>, prods: seq<Product>, promotionId: Id, p: Product)
    requires KeysUnique(prods, ProductId) && p in prods && ProductPromotion(p.id, promotionId) in links
    ensures p in LinkedProducts(links, prods, promotionId)
  {
    if links[0] == ProductPromotion(p.id, promotionId) {
      var k := FindFirst(prods, ProductId, p.id).value;
      var m :| 0 <= m < |prods| && prods[m] == p;
      KeyLocates(prods, ProductId, m);
      assert prods[k] == p;
    } else {
      assert ProductPromotion(p.id, promotionId) in links[1..] by {
        assert links == [links[0]] + links[1..];
      }
      LinkedProductsComplete(links[1..], prods, promotionId, p);
    }
  }

  /** The database client: one field per table, and the counter that issues record ids. */
  class Database {
    var categories: seq<Category>
    var products: seq<Product>
    var promotions: seq<Promotion>
    var links: seq<ProductPromotion>
    var users: seq<User>
    var nextId: Id

    ghost predicate Valid()
      reads this
    {
      CategoriesValid(categories, nextId) &&
      ProductsValid(products, categories, nextId) &&
      PromotionsValid(promotions, nextId) &&
      LinksValid(links, promotions, products) &&
      UsersValid(users, nextId)
    }

    constructor ()
      ensures Valid()
      ensures categories == [] && products == [] && promotions == [] && links == [] && users == []
    {
      categories, products, promotions, links, users, nextId := [], [], [], [], [], 0;
      assert CategoryTree.Ranked([], map[]);
    }
  }
}
