/** The records of the store: one datatype per table row. Prices and amounts are integer
    cents; dates are integer millisecond timestamps. */
module Entities {
  import opened Outcomes

  /** Record ids are opaque; the store draws fresh ones from a counter. */
  type Id = nat

  datatype Category = Category(
    id: Id,
    name: string,
    slug: string,
    description: Option<string>,
    image: Option<string>,
    isActive: bool,
    parentId: Option<Id>)

  datatype Product = Product(
    id: Id,
    name: string,
    slug: string,
    description: string,
    price: int,
    salePrice: Option<int>,
    image: Option<string>,
    images: seq<string>,
    stock: int,
    isActive: bool,
    isFeatured: bool,
    sku: Option<string>,
    categoryId: Option<Id>,
    tags: seq<string>,
    regionCodes: seq<string>,
    createdAt: int)

  datatype DiscountType = Percentage | Fixed | BuyXGetY | Bundle

  datatype Promotion = Promotion(
    id: Id,
    name: string,
    description: Option<string>,
    discountType: DiscountType,
    discountValue: int,
    code: Option<string>,
    startDate: int,
    endDate: int,
    isActive: bool)

  /** A row of the join table between products and promotions. */
  datatype ProductPromotion = ProductPromotion(productId: Id, promotionId: Id)

  /** The stored role of a user; `Customer` is the role named USER. */
  datatype Role = Customer | Admin | SuperAdmin

  datatype User = User(
    id: Id,
    email: string,
    name: string,
    password: Option<string>,
    emailVerified: bool,
    role: Role,
    verificationToken: Option<string>,
    verificationTokenExpires: Option<int>,
    resetPasswordToken: Option<string>,
    resetPasswordExpires: Option<int>)

  // Key selectors, passed to the generic table operations.
  function CategoryId(c: Category): Id { c.id }
  function CategorySlug(c: Category): string { c.slug }
  function ProductId(p: Product): Id { p.id }
  function ProductSlug(p: Product): string { p.slug }
  function PromotionId(p: Promotion): Id { p.id }
  function PromotionCode(p: Promotion): Option<string> { p.code }
  function UserId(u: User): Id { u.id }
  function UserEmail(u: User): string { u.email }
  function LinkProductId(l: ProductPromotion): Id { l.productId }
  /** The composite key `productId_promotionId` of the join table. */
  function LinkKey(l: ProductPromotion): (Id, Id) { (l.productId, l.promotionId) }
}
