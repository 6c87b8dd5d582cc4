/** The document schemas of shared/models: one record per entity, the
    validation a `save` runs on it, and the store the product service reads. */
module Models {
  import opened Common
  import opened Text

  // ---------------------------------------------------------------- Product

  datatype Product = Product(
    name: string,
    price: real,
    title: string,
    shortDescription: string,
    longDescription: string,
    details: Option<string>,
    images: seq<string>,
    categoryIds: seq<CategoryId>,
    tags: seq<string>,
    discount: real,
    couponCodes: seq<CouponId>,
    averageRating: real,
    numberOfReviews: int)

  const MaxShortDescription := 200
  const MaxDiscount := 100.0
  const MaxAverageRating := 5.0

  /** The validators of the product schema: the required strings are present
      (Mongoose rejects an empty string as missing), the price is not negative,
      the short description has at most 200 characters, the discount is a
      percentage, the average rating lies in [0, 5] and the review count is
      not negative.  Trimmed paths hold trimmed strings. */
  predicate ValidProduct(p: Product)
  {
    && p.name != "" && Trimmed(p.name)
    && p.price >= 0.0
    && p.title != "" && Trimmed(p.title)
    && p.shortDescription != "" && |p.shortDescription| <= MaxShortDescription
    && p.longDescription != ""
    && (forall i :: 0 <= i < |p.tags| ==> Trimmed(p.tags[i]))
    && 0.0 <= p.discount <= MaxDiscount
    && 0.0 <= p.averageRating <= MaxAverageRating
    && p.numberOfReviews >= 0
  }

  /** The unique index on `productName`. */
  predicate UniqueProductNames(products: map<ProductId, Product>)
  {
    forall a, b :: a in products && b in products && a != b ==> products[a].name != products[b].name
  }

  // ---------------------------------------------------------- RatingReview

  datatype Review = Review(
    id: ReviewId,
    productId: ProductId,
    userId: UserId,
    ratings: real,
    description: Option<string>)

  const MinRating := 1.0
  const MaxRating := 5.0
  const MaxReviewDescription := 1000

  /** The validators of the review schema: the rating lies in [1, 5]; the
      description is trimmed and has at most 1000 characters. */
  predicate ValidReview(r: Review)
  {
    && MinRating <= r.ratings <= MaxRating
    && (r.description.Some? ==> Trimmed(r.description.value) && |r.description.value| <= MaxReviewDescription)
  }

  /** The compound unique index on (productId, userId). */
  predicate OneReviewPerUser(reviews: seq<Review>)
  {
    forall i, j :: 0 <= i < j < |reviews| ==>
      reviews[i].productId != reviews[j].productId || reviews[i].userId != reviews[j].userId
  }

  predicate DistinctReviewIds(reviews: seq<Review>)
  {
    forall i, j :: 0 <= i < j < |reviews| ==> reviews[i].id != reviews[j].id
  }

  // ---------------------------------------------------------------- Coupon

  datatype Coupon = Coupon(
    id: CouponId,
    code: string,
    discountType: string,
    discountValue: real,
    minPurchaseAmount: real,
    maxDiscountAmount: Option<real>,
    expirationDate: int,
    isActive: bool)

  /** The `enum` of `discountType`. */
  predicate IsDiscountType(t: string)
  {
    t == "percentage" || t == "fixed"
  }

  /** The validators of the coupon schema: a present, upper-cased, trimmed
      code, a discount type from the enum, and amounts that are not negative
      (a `null` maximum is not checked). */
  predicate ValidCoupon(c: Coupon)
  {
    && c.code != "" && Trimmed(c.code) && NoLowerCase(c.code)
    && IsDiscountType(c.discountType)
    && c.discountValue >= 0.0
    && c.minPurchaseAmount >= 0.0
    && (c.maxDiscountAmount.Some? ==> c.maxDiscountAmount.value >= 0.0)
  }

  /** The unique index on `code`. */
  predicate UniqueCodes(coupons: seq<Coupon>)
  {
    forall i, j :: 0 <= i < j < |coupons| ==> coupons[i].code != coupons[j].code
  }

  predicate DistinctCouponIds(coupons: seq<Coupon>)
  {
    forall i, j :: 0 <= i < j < |coupons| ==> coupons[i].id != coupons[j].id
  }

  // -------------------------------------------------------------- Wishlist

  /** A `(productId, quantity)` line of a cart or a wishlist. */
  datatype Line = Line(productId: ProductId, quantity: int)

  const DefaultQuantity := 1

  /** The line a wishlist stores for a pushed `{ productId, quantity }`: the
      schema default fills in a missing quantity. */
  function WishlistLine(productId: ProductId, quantity: Option<int>): (l: Line)
    ensures l.productId == productId
    ensures quantity.None? ==> l.quantity == DefaultQuantity
    ensures quantity.Some? ==> l.quantity == quantity.value
  {
    Line(productId, if quantity.Some? then quantity.value else DefaultQuantity)
  }

  /** The `min: 1` validator of a wishlist line's quantity. */
  predicate ValidWishlistLine(l: Line)
  {
    l.quantity >= 1
  }

  predicate ValidWishlistLines(lines: seq<Line>)
  {
    forall i :: 0 <= i < |lines| ==> ValidWishlistLine(lines[i])
  }

  // -------------------------------------------------------------- Category

  datatype Category = Category(
    name: string,
    slug: string,
    description: Option<string>,
    parentCategory: Option<CategoryId>)

  /** The validators of the category schema: a present trimmed name, a
      lower-cased trimmed slug and a trimmed description. */
  predicate ValidCategory(c: Category)
  {
    && c.name != "" && Trimmed(c.name)
    && Trimmed(c.slug) && NoUpperCase(c.slug)
    && (c.description.Some? ==> Trimmed(c.description.value))
  }

  /** The unique indexes on `name` and on `slug`. */
  predicate UniqueCategoryKeys(categories: map<CategoryId, Category>)
  {
    forall a, b :: a in categories && b in categories && a != b ==>
      categories[a].name != categories[b].name && categories[a].slug != categories[b].slug
  }

  // ----------------------------------------------------------------- Store

  /** The collections of the product service.  Products and categories are
      looked up by id; reviews and coupons are kept in store order, because a
      handler folds over the reviews and `findOne` returns the first coupon. */
  datatype Db = Db(
    products: map<ProductId, Product>,
    categories: map<CategoryId, Category>,
    coupons: seq<Coupon>,
    reviews: seq<Review>)

  /** The status a handler answers with, and the store after it. */
  datatype Response = Response(outcome: Outcome, db: Db)
}
