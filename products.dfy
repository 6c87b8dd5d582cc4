/** The product handlers of services/product/controllers/product.controller.js
    that hold logic: the filter of the listing, the name guard of create and
    update, the field merge of update and the incremental rating update. */
module Products {
  import opened Common
  import opened Text
  import opened Models
  import opened Ratings

  // ------------------------------------------------------------ listing

  /** A price condition: `$gte` and `$lte`, each optional. */
  datatype PriceRange = PriceRange(min: Option<real>, max: Option<real>)

  /** The `query` object of GET /api/products. */
  datatype ProductQuery = ProductQuery(categoryId: Option<CategoryId>, tags: Option<seq<string>>, price: PriceRange)

  /** Builds the query the way the handler does, one guarded assignment after
      another.  A `Some` price is the `parseFloat` of a non-empty query string,
      so it is truthy even when it is 0; `tags` is the raw query string.  The
      `$lte` assignment spreads the `$gte` already there. */
  function BuildQuery(categoryId: Option<CategoryId>, tags: string, minPrice: Option<real>, maxPrice: Option<real>)
    : (q: ProductQuery)
    ensures q.categoryId == categoryId
    ensures q.tags.Some? <==> tags != ""
    ensures tags != "" ==> q.tags == Some(Split(tags, ','))
    ensures q.price == PriceRange(minPrice, maxPrice)
  {
    var withTags := if tags != "" then Some(Split(tags, ',')) else None;
    var withMin := if minPrice.Some? then PriceRange(minPrice, None) else PriceRange(None, None);
    var withMax := if maxPrice.Some? then withMin.(max := maxPrice) else withMin;
    ProductQuery(categoryId, withTags, withMax)
  }

  /** Some tag of the product equals some value of the `$in` list; the trim
      setter of `tagsAndKeywords` applies to the query values too. */
  predicate AnyTag(productTags: seq<string>, wanted: seq<string>)
  {
    exists i, j :: 0 <= i < |productTags| && 0 <= j < |wanted| && productTags[i] == Trim(wanted[j])
  }

  /** What `Product.find(query)` matches. */
  predicate Selects(q: ProductQuery, p: Product)
  {
    && (q.categoryId.Some? ==> q.categoryId.value in p.categoryIds)
    && (q.tags.Some? ==> AnyTag(p.tags, q.tags.value))
    && (q.price.min.Some? ==> p.price >= q.price.min.value)
    && (q.price.max.Some? ==> p.price <= q.price.max.value)
  }

  /** GET /api/products without `search`: the products the query selects. */
  function GetAllProducts(db: Db, q: ProductQuery): (r: map<ProductId, Product>)
    ensures forall id :: id in r <==> id in db.products && Selects(q, db.products[id])
    ensures forall id :: id in r ==> r[id] == db.products[id]
  {
    map id | id in db.products && Selects(q, db.products[id]) :: db.products[id]
  }

  /** With both bounds given, a product is listed exactly when its price lies
      between them: the second assignment does not drop the first bound. */
  lemma BothPriceBoundsKept(db: Db, lo: real, hi: real, id: ProductId)
    requires id in db.products
    ensures id in GetAllProducts(db, BuildQuery(None, "", Some(lo), Some(hi))) <==>
      lo <= db.products[id].price <= hi
  {
  }

  lemma SplitAB()
    ensures Split("a,b", ',') == ["a", "b"]
  {
    assert Split("", ',') == [""];
    assert "b"[0] == 'b' && "b"[1..] == "";
    assert Split("b", ',') == [['b'] + ""] + [];
    assert ['b'] + "" == "b";
    assert ",b"[0] == ',' && ",b"[1..] == "b";
    assert Split(",b", ',') == [""] + ["b"];
    assert "a,b"[0] == 'a' && "a,b"[1..] == ",b";
    assert Split("a,b", ',') == [['a'] + ""] + ["b"];
    assert ['a'] + "" == "a";
  }

  /** Filtering by tags "a,b" lists a product exactly when it has tag "a" or tag "b". */
  lemma CommaSeparatedTags(db: Db, id: ProductId)
    requires id in db.products
    ensures id in GetAllProducts(db, BuildQuery(None, "a,b", None, None)) <==>
      "a" in db.products[id].tags || "b" in db.products[id].tags
  {
    SplitAB();
    var q := BuildQuery(None, "a,b", None, None);
    assert q == ProductQuery(None, Some(["a", "b"]), PriceRange(None, None));
    assert Selects(q, db.products[id]) <==> AnyTag(db.products[id].tags, ["a", "b"]);
    AnyTagAB(db.products[id].tags);
  }

  lemma AnyTagAB(tags: seq<string>)
    ensures AnyTag(tags, ["a", "b"]) <==> "a" in tags || "b" in tags
  {
    var wanted := ["a", "b"];
    assert Trimmed("a") && Trimmed("b") by {
      assert !IsSpace('a') && !IsSpace('b');
    }
    AnyTagOfTrimmed(tags, wanted);
    if exists i, j :: 0 <= i < |tags| && 0 <= j < |wanted| && tags[i] == wanted[j] {
      var i, j :| 0 <= i < |tags| && 0 <= j < |wanted| && tags[i] == wanted[j];
      assert j == 0 || j == 1;
    }
    if "a" in tags {
      var i :| 0 <= i < |tags| && tags[i] == "a";
      assert tags[i] == wanted[0];
    } else if "b" in tags {
      var i :| 0 <= i < |tags| && tags[i] == "b";
      assert tags[i] == wanted[1];
    }
  }

  /** Some value of the list, through the trim setter, is one of the tags. */
  lemma AnyTagIffSomeValue(tags: seq<string>, wanted: seq<string>)
    ensures AnyTag(tags, wanted) <==> exists w :: w in wanted && Trim(w) in tags
  {
    if exists w :: w in wanted && Trim(w) in tags {
      var w :| w in wanted && Trim(w) in tags;
      var i :| 0 <= i < |tags| && tags[i] == Trim(w);
      var j :| 0 <= j < |wanted| && wanted[j] == w;
      assert tags[i] == Trim(wanted[j]);
    }
    if AnyTag(tags, wanted) {
      var i, j :| 0 <= i < |tags| && 0 <= j < |wanted| && tags[i] == Trim(wanted[j]);
      assert wanted[j] in wanted && Trim(wanted[j]) in tags;
    }
  }

  /** Filtering by a comma-separated `tags` string lists a product exactly
      when the string is empty or one of its comma-separated values, trimmed,
      is a tag of the product. */
  lemma TagFilter(db: Db, t: string, id: ProductId)
    requires id in db.products
    ensures id in GetAllProducts(db, BuildQuery(None, t, None, None)) <==>
      t == "" || exists w :: w in Split(t, ',') && Trim(w) in db.products[id].tags
  {
    AnyTagIffSomeValue(db.products[id].tags, Split(t, ','));
  }

  /** With trimmed query values the trim setter changes nothing. */
  lemma AnyTagOfTrimmed(tags: seq<string>, wanted: seq<string>)
    requires forall j :: 0 <= j < |wanted| ==> Trimmed(wanted[j])
    ensures AnyTag(tags, wanted) <==> exists i, j :: 0 <= i < |tags| && 0 <= j < |wanted| && tags[i] == wanted[j]
  {
    forall j | 0 <= j < |wanted| ensures Trim(wanted[j]) == wanted[j] {
      TrimOfTrimmed(wanted[j]);
    }
  }

  // -------------------------------------------------------------- names

  /** `Product.findOne({ productName })`: some product holds the name. */
  predicate NameTaken(products: map<ProductId, Product>, name: string)
  {
    exists id :: id in products && products[id].name == name
  }

  /** The product side of the store: every product passes its schema and the
      names are unique. */
  predicate ProductsValid(db: Db)
  {
    (forall id :: id in db.products ==> ValidProduct(db.products[id])) && UniqueProductNames(db.products)
  }

  // ------------------------------------------------------------- create

  /** The request body of create and update; `None` is an absent field. */
  datatype ProductFields = ProductFields(
    name: Option<string>,
    price: Option<real>,
    title: Option<string>,
    shortDescription: Option<string>,
    longDescription: Option<string>,
    details: Option<string>,
    images: Option<seq<string>>,
    categoryIds: Option<seq<CategoryId>>,
    tags: Option<seq<string>>,
    discount: Option<real>,
    couponCodes: Option<seq<CouponId>>)

  const EmptyBody := ProductFields(None, None, None, None, None, None, None, None, None, None, None)

  /** The trim setter on every element of a string array. */
  function TrimAll(tags: seq<string>): (r: seq<string>)
    ensures |r| == |tags|
    ensures forall i :: 0 <= i < |r| ==> r[i] == Trim(tags[i]) && Trimmed(r[i])
  {
    seq(|tags|, i requires 0 <= i < |tags| => Trim(tags[i]))
  }

  /** `new Product({...})`: the setters and defaults applied to the body;
      `None` when a required field is absent, which fails at save. */
  function NewProduct(name: string, f: ProductFields): (r: Option<Product>)
    ensures r.Some? <==> f.price.Some? && f.title.Some? && f.shortDescription.Some? && f.longDescription.Some?
    ensures r.Some? ==>
      && r.value.name == Trim(name)
      && r.value.price == f.price.value
      && r.value.title == Trim(f.title.value)
      && r.value.shortDescription == f.shortDescription.value
      && r.value.longDescription == f.longDescription.value
      && r.value.details == f.details
      && r.value.tags == TrimAll(OrList(f.tags, []))
      && r.value.discount == IfDefined(f.discount, 0.0)
      && r.value.images == OrList(f.images, [])
      && r.value.categoryIds == OrList(f.categoryIds, [])
      && r.value.couponCodes == OrList(f.couponCodes, [])
      && r.value.averageRating == 0.0 && r.value.numberOfReviews == 0
  {
    if f.price.None? || f.title.None? || f.shortDescription.None? || f.longDescription.None? then None
    else Some(Product(
      name := Trim(name),
      price := f.price.value,
      title := Trim(f.title.value),
      shortDescription := f.shortDescription.value,
      longDescription := f.longDescription.value,
      details := f.details,
      images := OrList(f.images, []),
      categoryIds := OrList(f.categoryIds, []),
      tags := TrimAll(OrList(f.tags, [])),
      discount := IfDefined(f.discount, 0.0),
      couponCodes := OrList(f.couponCodes, []),
      averageRating := 0.0,
      numberOfReviews := 0))
  }

  /** POST /api/products.  `newId` is the id the store gives the new product. */
  function CreateProduct(db: Db, name: string, f: ProductFields, newId: ProductId): (r: Response)
    requires newId !in db.products
    ensures r.outcome == BadRequest("Product name already in use") <==> NameTaken(db.products, Trim(name))
    ensures r.outcome != Created ==> r.db == db
    ensures r.outcome == Created ==>
      && !NameTaken(db.products, Trim(name))
      && NewProduct(name, f).Some? && ValidProduct(NewProduct(name, f).value)
      && r.db == db.(products := db.products[newId := NewProduct(name, f).value])
    ensures r.outcome == ServerError <==>
      !NameTaken(db.products, Trim(name)) && (NewProduct(name, f).None? || !ValidProduct(NewProduct(name, f).value))
    ensures r.outcome in {Created, ServerError, BadRequest("Product name already in use")}
  {
    if NameTaken(db.products, Trim(name)) then Response(BadRequest("Product name already in use"), db)
    else
      var p := NewProduct(name, f);
      if p.Some? && ValidProduct(p.value) then Response(Created, db.(products := db.products[newId := p.value]))
      else Response(ServerError, db)
  }

  lemma CreateKeepsProductsValid(db: Db, name: string, f: ProductFields, newId: ProductId)
    requires newId !in db.products && ProductsValid(db)
    ensures ProductsValid(CreateProduct(db, name, f, newId).db)
  {
    var r := CreateProduct(db, name, f, newId);
    if r.outcome == Created {
      var p := NewProduct(name, f).value;
      var products := db.products[newId := p];
      assert r.db.products == products;
      assert ValidProduct(p);
      forall a | a in products
        ensures ValidProduct(products[a])
      {
        if a != newId {
          assert products[a] == db.products[a];
        }
      }
      assert forall a :: a in db.products ==> db.products[a].name != p.name;
      assert UniqueProductNames(products);
    } else {
      assert r.db == db;
    }
  }

  // ------------------------------------------------------------- update

  /** The field assignments of PUT /api/products/:id: `x || old`, with the
      setters applied to a new value, except `discount`, which is replaced
      whenever it is not `undefined`. */
  function MergeProduct(cur: Product, f: ProductFields): (m: Product)
    ensures f.name.None? || f.name.value == "" ==> m.name == cur.name
    ensures f.name.Some? && f.name.value != "" ==> m.name == Trim(f.name.value)
    ensures f.price.None? || f.price.value == 0.0 ==> m.price == cur.price
    ensures f.price.Some? && f.price.value != 0.0 ==> m.price == f.price.value
    ensures f.title.None? || f.title.value == "" ==> m.title == cur.title
    ensures f.title.Some? && f.title.value != "" ==> m.title == Trim(f.title.value)
    ensures f.shortDescription.None? || f.shortDescription.value == "" ==> m.shortDescription == cur.shortDescription
    ensures f.shortDescription.Some? && f.shortDescription.value != "" ==> m.shortDescription == f.shortDescription.value
    ensures f.longDescription.None? || f.longDescription.value == "" ==> m.longDescription == cur.longDescription
    ensures f.longDescription.Some? && f.longDescription.value != "" ==> m.longDescription == f.longDescription.value
    ensures f.details.None? || f.details.value == "" ==> m.details == cur.details
    ensures f.details.Some? && f.details.value != "" ==> m.details == f.details
    ensures f.images.None? ==> m.images == cur.images
    ensures f.images.Some? ==> m.images == f.images.value
    ensures f.categoryIds.None? ==> m.categoryIds == cur.categoryIds
    ensures f.categoryIds.Some? ==> m.categoryIds == f.categoryIds.value
    ensures f.tags.None? ==> m.tags == cur.tags
    ensures f.tags.Some? ==> m.tags == TrimAll(f.tags.value)
    ensures f.discount.None? ==> m.discount == cur.discount
    ensures f.discount.Some? ==> m.discount == f.discount.value
    ensures f.couponCodes.None? ==> m.couponCodes == cur.couponCodes
    ensures f.couponCodes.Some? ==> m.couponCodes == f.couponCodes.value
    ensures m.averageRating == cur.averageRating && m.numberOfReviews == cur.numberOfReviews
  {
    var name := if f.name.Some? && f.name.value != "" then Trim(f.name.value) else cur.name;
    var title := if f.title.Some? && f.title.value != "" then Trim(f.title.value) else cur.title;
    var details := if f.details.Some? && f.details.value != "" then f.details else cur.details;
    var tags := if f.tags.Some? then TrimAll(f.tags.value) else cur.tags;
    Product(
      name, OrNumber(f.price, cur.price), title,
      OrString(f.shortDescription, cur.shortDescription), OrString(f.longDescription, cur.longDescription),
      details, OrList(f.images, cur.images), OrList(f.categoryIds, cur.categoryIds), tags,
      IfDefined(f.discount, cur.discount), OrList(f.couponCodes, cur.couponCodes),
      cur.averageRating, cur.numberOfReviews)
  }

  /** The name guard of update: a truthy name that differs from the stored one
      is looked up (through the trim setter), and any product holding it,
      the product itself included, blocks the update. */
  predicate RenameBlocked(products: map<ProductId, Product>, cur: Product, name: Option<string>)
  {
    name.Some? && name.value != "" && name.value != cur.name && NameTaken(products, Trim(name.value))
  }

  /** PUT /api/products/:id. */
  function UpdateProduct(db: Db, id: ProductId, f: ProductFields): (r: Response)
    ensures id !in db.products ==> r == Response(NotFound("Product not found"), db)
    ensures r.outcome.NotFound? <==> id !in db.products
    ensures r.outcome == BadRequest("Product name already in use") <==>
      id in db.products && RenameBlocked(db.products, db.products[id], f.name)
    ensures r.outcome != Ok ==> r.db == db
    ensures r.outcome == Ok ==>
      && id in db.products
      && ValidProduct(MergeProduct(db.products[id], f))
      && r.db == db.(products := db.products[id := MergeProduct(db.products[id], f)])
    ensures r.outcome == ServerError <==>
      id in db.products && !RenameBlocked(db.products, db.products[id], f.name)
      && !ValidProduct(MergeProduct(db.products[id], f))
    ensures r.outcome in {Ok, ServerError, NotFound("Product not found"), BadRequest("Product name already in use")}
  {
    if id !in db.products then Response(NotFound("Product not found"), db)
    else
      var cur := db.products[id];
      if RenameBlocked(db.products, cur, f.name) then Response(BadRequest("Product name already in use"), db)
      else
        var m := MergeProduct(cur, f);
        if ValidProduct(m) then Response(Ok, db.(products := db.products[id := m]))
        else Response(ServerError, db)
  }

  /** An update with an empty body succeeds on a valid product and changes nothing. */
  lemma EmptyUpdateIsIdentity(db: Db, id: ProductId)
    requires id in db.products && ValidProduct(db.products[id])
    ensures UpdateProduct(db, id, EmptyBody) == Response(Ok, db)
  {
    assert MergeProduct(db.products[id], EmptyBody) == db.products[id];
    assert db.products[id := db.products[id]] == db.products;
  }

  /** A discount of 0 is applied, while a price of 0 keeps the old price. */
  lemma ZeroDiscountAppliedZeroPriceIgnored(db: Db, id: ProductId)
    requires id in db.products && ValidProduct(db.products[id])
    ensures var f := EmptyBody.(price := Some(0.0), discount := Some(0.0));
      var r := UpdateProduct(db, id, f);
      r.outcome == Ok && r.db.products[id].discount == 0.0 && r.db.products[id].price == db.products[id].price
  {
    var f := EmptyBody.(price := Some(0.0), discount := Some(0.0));
    assert MergeProduct(db.products[id], f) == db.products[id].(discount := 0.0);
  }

  /** Updates keep product names unique: a rename to a name some product holds
      is refused, and when the stored name is kept nothing changes. */
  lemma UpdateKeepsProductsValid(db: Db, id: ProductId, f: ProductFields)
    requires ProductsValid(db)
    ensures ProductsValid(UpdateProduct(db, id, f).db)
  {
    var r := UpdateProduct(db, id, f);
    if r.outcome == Ok {
      var m := MergeProduct(db.products[id], f);
      forall a, b | a in r.db.products && b in r.db.products && a != b
        ensures r.db.products[a].name != r.db.products[b].name
      {
        if a == id || b == id {
          var other := if a == id then b else a;
          if f.name.Some? && f.name.value != "" && f.name.value != db.products[id].name {
            assert !NameTaken(db.products, Trim(f.name.value));
            assert db.products[other].name != m.name;
          } else if f.name.Some? && f.name.value != "" {
            assert m.name == db.products[id].name by {
              TrimOfTrimmed(db.products[id].name);
            }
          }
        }
      }
    }
  }

  // ------------------------------------------------ incremental rating

  /** The assignments of PATCH /api/products/:id/rating: the count grows by
      one and the new average is the old total plus the rating over the new
      count. */
  function Patched(p: Product, rating: real): (q: Product)
    requires p.numberOfReviews != -1
    ensures q == p.(numberOfReviews := q.numberOfReviews, averageRating := q.averageRating)
    ensures q.numberOfReviews == p.numberOfReviews + 1
    ensures q.averageRating * (q.numberOfReviews as real) == p.averageRating * (p.numberOfReviews as real) + rating
  {
    var total := p.averageRating * (p.numberOfReviews as real);
    var n := p.numberOfReviews + 1;
    var avg := (total + rating) / (n as real);
    assert avg * (n as real) == total + rating;
    p.(numberOfReviews := n, averageRating := avg)
  }

  /** PATCH /api/products/:id/rating: the product is looked up before the
      range check.  A count that would become 0 only arises from a product
      that failed its schema; its non-finite average fails at save. */
  function UpdateProductRating(db: Db, id: ProductId, rating: real): (r: Response)
    ensures id !in db.products ==> r == Response(NotFound("Product not found"), db)
    ensures r.outcome == BadRequest("Rating must be between 0 and 5") <==>
      id in db.products && (rating < 0.0 || rating > 5.0)
    ensures r.outcome != Ok ==> r.db == db
    ensures r.outcome == Ok ==>
      && id in db.products && db.products[id].numberOfReviews != -1
      && ValidProduct(Patched(db.products[id], rating))
      && r.db == db.(products := db.products[id := Patched(db.products[id], rating)])
  {
    if id !in db.products then Response(NotFound("Product not found"), db)
    else if rating < 0.0 || rating > 5.0 then Response(BadRequest("Rating must be between 0 and 5"), db)
    else if db.products[id].numberOfReviews == -1 then Response(ServerError, db)
    else
      var q := Patched(db.products[id], rating);
      if ValidProduct(q) then Response(Ok, db.(products := db.products[id := q]))
      else Response(ServerError, db)
  }

  lemma {:induction false} ScaleBounds(avg: real, n: nat)
    requires 0.0 <= avg <= MaxAverageRating
    ensures 0.0 <= avg * (n as real) <= 5.0 * (n as real)
  {
    if n > 0 {
      ScaleBounds(avg, n - 1);
      assert avg * (n as real) == avg * ((n - 1) as real) + avg;
    }
  }

  /** The incremental mean stays in [0, 5] when the old mean and the rating do. */
  lemma IncrementalMeanInRange(p: Product, rating: real)
    requires 0.0 <= p.averageRating <= MaxAverageRating && 0.0 <= rating <= MaxAverageRating
    requires p.numberOfReviews >= 0
    ensures 0.0 <= Patched(p, rating).averageRating <= MaxAverageRating
  {
    var count := p.numberOfReviews;
    var m := (count + 1) as real;
    var scaled := p.averageRating * (count as real);
    var t := scaled + rating;
    assert Patched(p, rating).averageRating == t / m;
    assert m == (count as real) + 1.0;
    ScaleBounds(p.averageRating, count);
    assert 0.0 <= scaled <= 5.0 * (count as real);
    assert 0.0 <= t <= 5.0 * (count as real) + 5.0;
    assert 5.0 * m == 5.0 * (count as real) + 5.0;
    DivBounds(t, m, 0.0, 5.0);
  }

  /** On a valid product with a rating in range the PATCH always succeeds. */
  lemma RatingPatchSucceeds(db: Db, id: ProductId, rating: real)
    requires id in db.products && ValidProduct(db.products[id]) && 0.0 <= rating <= 5.0
    ensures UpdateProductRating(db, id, rating).outcome == Ok
  {
    var p := db.products[id];
    var q := Patched(p, rating);
    IncrementalMeanInRange(p, rating);
    assert q == p.(numberOfReviews := q.numberOfReviews, averageRating := q.averageRating);
    assert ValidProduct(q);
  }

  /** The incremental formula agrees with the recomputation from all reviews
      when a review with that rating is added: statistics that matched the old
      reviews match them plus the new one. */
  lemma IncrementalMatchesRecompute(p: Product, reviews: seq<Review>, x: Review)
    requires StatsMatch(p, ReviewsOf(reviews, x.productId))
    ensures StatsMatch(Patched(p, x.ratings), ReviewsOf(reviews + [x], x.productId))
  {
    var q := Patched(p, x.ratings);
    IncrementalStep(p, q, reviews, x);
  }

  lemma IncrementalStep(p: Product, q: Product, reviews: seq<Review>, x: Review)
    requires StatsMatch(p, ReviewsOf(reviews, x.productId))
    requires q.numberOfReviews == p.numberOfReviews + 1
    requires q.averageRating * (q.numberOfReviews as real) == p.averageRating * (p.numberOfReviews as real) + x.ratings
    ensures StatsMatch(q, ReviewsOf(reviews + [x], x.productId))
  {
    var rs := ReviewsOf(reviews, x.productId);
    ReviewsOfAppend(reviews, [x], x.productId);
    Single(x, x.productId);
    StatsStep(p, q, rs, x);
  }

  lemma StatsStep(p: Product, q: Product, rs: seq<Review>, x: Review)
    requires StatsMatch(p, rs)
    requires q.numberOfReviews == p.numberOfReviews + 1
    requires q.averageRating * (q.numberOfReviews as real) == p.averageRating * (p.numberOfReviews as real) + x.ratings
    ensures StatsMatch(q, rs + [x])
  {
    assert (rs + [x])[..|rs|] == rs;
    assert TotalRatings(rs + [x]) == TotalRatings(rs) + x.ratings;
  }

  /** But the PATCH stores no review: from consistent statistics it always
      leaves them disagreeing with the stored reviews. */
  lemma RatingPatchBreaksConsistency(db: Db, id: ProductId, rating: real)
    requires StatsConsistent(db)
    requires UpdateProductRating(db, id, rating).outcome == Ok
    ensures !StatsConsistent(UpdateProductRating(db, id, rating).db)
  {
    var r := UpdateProductRating(db, id, rating);
    assert StatsMatch(db.products[id], ReviewsOf(db.reviews, id));
    assert r.db.products[id].numberOfReviews != |ReviewsOf(r.db.reviews, id)|;
  }
}
