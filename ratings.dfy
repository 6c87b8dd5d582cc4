/** The rating and review handlers of
    services/product/controllers/ratingreview.controller.js, and the product
    statistics they recompute after every change to the reviews. */
module Ratings {
  import opened Common
  import opened Text
  import opened Models

  // ------------------------------------------------------------ the fold

  /** `RatingsAndReviews.find({ productId })`: the product's reviews, in store order. */
  function ReviewsOf(reviews: seq<Review>, productId: ProductId): (r: seq<Review>)
    ensures |r| <= |reviews|
    ensures forall i :: 0 <= i < |r| ==> r[i].productId == productId
  {
    if reviews == [] then []
    else
      var last := reviews[|reviews| - 1];
      var front := reviews[..|reviews| - 1];
      assert reviews == front + [last];
      ReviewsOf(front, productId) + (if last.productId == productId then [last] else [])
  }

  /** `reviews.reduce((sum, review) => sum + review.ratings, 0)`. */
  function TotalRatings(rs: seq<Review>): real
  {
    if rs == [] then 0.0 else TotalRatings(rs[..|rs| - 1]) + rs[|rs| - 1].ratings
  }

  /** The cached statistics agree with the reviews: the count is their number,
      the average times the count is their sum, and the average is exactly 0
      when there is none. */
  predicate StatsMatch(p: Product, rs: seq<Review>)
  {
    && p.numberOfReviews == |rs|
    && p.averageRating * (|rs| as real) == TotalRatings(rs)
    && (|rs| == 0 ==> p.averageRating == 0.0)
  }

  /** Every product's statistics agree with the reviews stored for it. */
  predicate StatsConsistent(db: Db)
  {
    forall id :: id in db.products ==> StatsMatch(db.products[id], ReviewsOf(db.reviews, id))
  }

  /** The review side of the store as the schemas and the handlers keep it. */
  predicate ReviewsValid(db: Db)
  {
    && (forall id :: id in db.products ==> ValidProduct(db.products[id]))
    && (forall i :: 0 <= i < |db.reviews| ==> ValidReview(db.reviews[i]))
    && OneReviewPerUser(db.reviews)
    && DistinctReviewIds(db.reviews)
    && StatsConsistent(db)
  }

  lemma {:induction false} ReviewsOfAppend(a: seq<Review>, b: seq<Review>, productId: ProductId)
    ensures ReviewsOf(a + b, productId) == ReviewsOf(a, productId) + ReviewsOf(b, productId)
    decreases |b|
  {
    if b == [] {
      assert a + b == a;
    } else {
      var b' := b[..|b| - 1];
      assert (a + b)[..|a + b| - 1] == a + b';
      ReviewsOfAppend(a, b', productId);
    }
  }

  lemma {:induction false} TotalAppend(a: seq<Review>, b: seq<Review>)
    ensures TotalRatings(a + b) == TotalRatings(a) + TotalRatings(b)
    decreases |b|
  {
    if b == [] {
      assert a + b == a;
    } else {
      var b' := b[..|b| - 1];
      assert (a + b)[..|a + b| - 1] == a + b';
      TotalAppend(a, b');
    }
  }

  /** The reviews of a product are among all reviews, so they are valid when all are. */
  lemma {:induction false} ReviewsOfValid(reviews: seq<Review>, productId: ProductId)
    requires forall i :: 0 <= i < |reviews| ==> ValidReview(reviews[i])
    ensures forall i :: 0 <= i < |ReviewsOf(reviews, productId)| ==> ValidReview(ReviewsOf(reviews, productId)[i])
  {
    if reviews != [] {
      var front := reviews[..|reviews| - 1];
      assert forall i :: 0 <= i < |front| ==> front[i] == reviews[i];
      ReviewsOfValid(front, productId);
    }
  }

  lemma Single(x: Review, productId: ProductId)
    ensures ReviewsOf([x], productId) == if x.productId == productId then [x] else []
    ensures TotalRatings([x]) == x.ratings
  {
    assert [x][..0] == [];
  }

  /** Valid ratings sum to between 1 and 5 per review. */
  lemma {:induction false} TotalBounds(rs: seq<Review>)
    requires forall i :: 0 <= i < |rs| ==> ValidReview(rs[i])
    ensures (|rs| as real) * MinRating <= TotalRatings(rs) <= (|rs| as real) * MaxRating
  {
    if rs != [] {
      TotalBounds(rs[..|rs| - 1]);
    }
  }

  /** The mean of valid ratings lies in [1, 5]. */
  lemma MeanInRange(rs: seq<Review>)
    requires |rs| > 0
    requires forall i :: 0 <= i < |rs| ==> ValidReview(rs[i])
    ensures MinRating <= TotalRatings(rs) / (|rs| as real) <= MaxRating
  {
    TotalBounds(rs);
    DivBounds(TotalRatings(rs), |rs| as real, MinRating, MaxRating);
  }

  /** Dividing by a positive number keeps bounds that scale with it. */
  lemma DivBounds(t: real, n: real, lo: real, hi: real)
    requires n > 0.0 && n * lo <= t <= n * hi
    ensures lo <= t / n <= hi
  {
  }

  // ------------------------------------------------------- recomputation

  /** The statistics a handler writes after a change to the reviews:
      `numberOfReviews = reviews.length` and `averageRating = total / reviews.length`,
      or both 0 when no review is left.  Create and update always leave at
      least one review, so only the delete handler has the zero branch. */
  function Recomputed(p: Product, rs: seq<Review>): (q: Product)
    ensures StatsMatch(q, rs)
    ensures |rs| == 0 ==> q.numberOfReviews == 0 && q.averageRating == 0.0
    ensures q == p.(numberOfReviews := q.numberOfReviews, averageRating := q.averageRating)
  {
    var n := |rs| as real;
    if |rs| > 0 then
      assert TotalRatings(rs) / n * n == TotalRatings(rs);
      p.(numberOfReviews := |rs|, averageRating := TotalRatings(rs) / n)
    else
      p.(numberOfReviews := 0, averageRating := 0.0)
  }

  /** `product.save()` after the recomputation: the reviews are already
      written; the product is written when it validates, otherwise the
      handler answers 500. */
  function SaveStats(db: Db, productId: ProductId): (r: Response)
    requires productId in db.products
    ensures var p := Recomputed(db.products[productId], ReviewsOf(db.reviews, productId));
      if ValidProduct(p) then r == Response(Ok, db.(products := db.products[productId := p]))
      else r == Response(ServerError, db)
  {
    var p := Recomputed(db.products[productId], ReviewsOf(db.reviews, productId));
    if ValidProduct(p) then Response(Ok, db.(products := db.products[productId := p]))
    else Response(ServerError, db)
  }

  // ------------------------------------------------------------ lookups

  /** `findById` on the reviews: the position of the review, or -1. */
  function ReviewIndex(reviews: seq<Review>, id: ReviewId): (k: int)
    ensures -1 <= k < |reviews|
    ensures k >= 0 ==> reviews[k].id == id
    ensures k == -1 ==> forall i :: 0 <= i < |reviews| ==> reviews[i].id != id
  {
    if reviews == [] then -1
    else if reviews[0].id == id then 0
    else
      var k := ReviewIndex(reviews[1..], id);
      assert forall i :: 0 < i < |reviews| ==> reviews[i] == reviews[1..][i - 1];
      if k == -1 then -1 else k + 1
  }

  predicate HasReviewBy(reviews: seq<Review>, productId: ProductId, userId: UserId)
  {
    exists i :: 0 <= i < |reviews| && reviews[i].productId == productId && reviews[i].userId == userId
  }

  /** The owner check of update and delete: the author, an admin or a seller. */
  predicate MayModify(review: Review, who: Principal)
  {
    review.userId == who.id || who.role == "admin" || who.role == "seller"
  }

  /** The trim setter on an optional description. */
  function TrimmedDescription(d: Option<string>): Option<string>
  {
    if d.Some? then Some(Trim(d.value)) else None
  }

  // ------------------------------------------------------------ handlers

  /** POST /api/ratings.  `newId` is the id the store gives the new review.
      The save validates the review before the unique (productId, userId)
      index is consulted: a validation error reaches the catch as a plain
      error (500), the duplicate key as code 11000 (400).  The product's
      statistics are saved in a second, separate write. */
  function CreateRatingReview(db: Db, userId: UserId, productId: ProductId, ratings: Option<real>,
                              description: Option<string>, newId: ReviewId): (r: Response)
    ensures productId !in db.products ==> r == Response(NotFound("Product not found"), db)
    ensures r.outcome.NotFound? <==> productId !in db.products
    ensures r.outcome in {Created, ServerError, NotFound("Product not found"),
                          BadRequest("User has already reviewed this product")}
    ensures r.outcome == BadRequest("User has already reviewed this product") <==>
      productId in db.products && ratings.Some?
      && ValidReview(Review(newId, productId, userId, ratings.value, TrimmedDescription(description)))
      && HasReviewBy(db.reviews, productId, userId)
    ensures r.outcome.BadRequest? || r.outcome.NotFound? ==> r.db == db
    ensures r.outcome != Created ==> r.db.products == db.products
    ensures r.outcome == Created ==>
      && productId in db.products && ratings.Some?
      && var reviews := db.reviews + [Review(newId, productId, userId, ratings.value, TrimmedDescription(description))];
         && r.db == db.(reviews := reviews,
                        products := db.products[productId := Recomputed(db.products[productId], ReviewsOf(reviews, productId))])
         && StatsMatch(r.db.products[productId], ReviewsOf(r.db.reviews, productId))
         && r.db.products[productId].numberOfReviews >= 1
  {
    if productId !in db.products then Response(NotFound("Product not found"), db)
    else if ratings.None? then Response(ServerError, db)
    else
      var review := Review(newId, productId, userId, ratings.value, TrimmedDescription(description));
      if !ValidReview(review) then Response(ServerError, db)
      else if HasReviewBy(db.reviews, productId, userId) then
        Response(BadRequest("User has already reviewed this product"), db)
      else
        var saved := db.(reviews := db.reviews + [review]);
        assert saved.reviews[|saved.reviews| - 1] == review;
        var r := SaveStats(saved, productId);
        if r.outcome == Ok then Response(Created, r.db) else r
  }

  /** The review after the merge of an update: a falsy rating or description
      keeps the stored one; the description setter trims a new one. */
  function MergedReview(current: Review, ratings: Option<real>, description: Option<string>): (m: Review)
    ensures m.id == current.id && m.productId == current.productId && m.userId == current.userId
    ensures m.ratings == (if ratings.Some? && ratings.value != 0.0 then ratings.value else current.ratings)
    ensures m.description ==
      (if description.Some? && description.value != "" then Some(Trim(description.value)) else current.description)
  {
    current.(
      ratings := OrNumber(ratings, current.ratings),
      description := if description.Some? && description.value != "" then Some(Trim(description.value))
                     else current.description)
  }

  /** PUT /api/ratings/:id.  The review's product never changes, and that
      product's statistics are recomputed from all of its reviews.  When the
      product is gone, the statistics assignment throws after the review
      was saved. */
  function UpdateRatingReview(db: Db, reviewId: ReviewId, who: Principal, ratings: Option<real>,
                              description: Option<string>): (r: Response)
    ensures ReviewIndex(db.reviews, reviewId) == -1 ==> r == Response(NotFound("Rating and review not found"), db)
    ensures r.outcome.Forbidden? <==>
      ReviewIndex(db.reviews, reviewId) >= 0 && !MayModify(db.reviews[ReviewIndex(db.reviews, reviewId)], who)
    ensures r.outcome.Forbidden? ==> r == Response(Forbidden("Not authorized to update this review"), db)
    ensures r.outcome.NotFound? <==> ReviewIndex(db.reviews, reviewId) == -1
    ensures r.outcome in {Ok, ServerError, NotFound("Rating and review not found"),
                          Forbidden("Not authorized to update this review")}
    ensures r.outcome == ServerError <==>
      var k := ReviewIndex(db.reviews, reviewId);
      && k >= 0 && MayModify(db.reviews[k], who)
      && var merged := MergedReview(db.reviews[k], ratings, description);
         var pid := merged.productId;
         || !ValidReview(merged)
         || pid !in db.products
         || !ValidProduct(Recomputed(db.products[pid], ReviewsOf(db.reviews[k := merged], pid)))
    ensures r.outcome == Ok ==>
      var k := ReviewIndex(db.reviews, reviewId);
      var pid := db.reviews[k].productId;
      var reviews := db.reviews[k := MergedReview(db.reviews[k], ratings, description)];
      && pid in db.products
      && r.db == db.(reviews := reviews, products := db.products[pid := Recomputed(db.products[pid], ReviewsOf(reviews, pid))])
      && StatsMatch(r.db.products[pid], ReviewsOf(r.db.reviews, pid))
  {
    var k := ReviewIndex(db.reviews, reviewId);
    if k < 0 then Response(NotFound("Rating and review not found"), db)
    else
      var current := db.reviews[k];
      if !MayModify(current, who) then Response(Forbidden("Not authorized to update this review"), db)
      else
        var updated := MergedReview(current, ratings, description);
        if !ValidReview(updated) then Response(ServerError, db)
        else
          var saved := db.(reviews := db.reviews[k := updated]);
          if current.productId !in db.products then Response(ServerError, saved)
          else SaveStats(saved, current.productId)
  }

  /** DELETE /api/ratings/:id.  After the review is removed the product's
      statistics are recomputed, 0 and 0 when none is left. */
  function DeleteRatingReview(db: Db, reviewId: ReviewId, who: Principal): (r: Response)
    ensures ReviewIndex(db.reviews, reviewId) == -1 ==> r == Response(NotFound("Rating and review not found"), db)
    ensures r.outcome.Forbidden? <==>
      ReviewIndex(db.reviews, reviewId) >= 0 && !MayModify(db.reviews[ReviewIndex(db.reviews, reviewId)], who)
    ensures r.outcome.Forbidden? ==> r == Response(Forbidden("Not authorized to delete this review"), db)
    ensures r.outcome.NotFound? <==> ReviewIndex(db.reviews, reviewId) == -1
    ensures r.outcome in {Ok, ServerError, NotFound("Rating and review not found"),
                          Forbidden("Not authorized to delete this review")}
    ensures r.outcome == ServerError <==>
      var k := ReviewIndex(db.reviews, reviewId);
      && k >= 0 && MayModify(db.reviews[k], who)
      && var pid := db.reviews[k].productId;
         || pid !in db.products
         || !ValidProduct(Recomputed(db.products[pid], ReviewsOf(db.reviews[..k] + db.reviews[k + 1..], pid)))
    ensures r.outcome == Ok ==>
      var k := ReviewIndex(db.reviews, reviewId);
      var pid := db.reviews[k].productId;
      var reviews := db.reviews[..k] + db.reviews[k + 1..];
      && pid in db.products
      && r.db == db.(reviews := reviews, products := db.products[pid := Recomputed(db.products[pid], ReviewsOf(reviews, pid))])
      && StatsMatch(r.db.products[pid], ReviewsOf(r.db.reviews, pid))
      && (ReviewsOf(r.db.reviews, pid) == [] ==> r.db.products[pid].averageRating == 0.0)
  {
    var k := ReviewIndex(db.reviews, reviewId);
    if k < 0 then Response(NotFound("Rating and review not found"), db)
    else
      var current := db.reviews[k];
      if !MayModify(current, who) then Response(Forbidden("Not authorized to delete this review"), db)
      else
        var saved := db.(reviews := db.reviews[..k] + db.reviews[k + 1..]);
        if current.productId !in db.products then Response(ServerError, saved)
        else SaveStats(saved, current.productId)
  }

  // ------------------------------------------------------------ properties

  /** The reviews around position k, with y in the middle. */
  lemma Around(reviews: seq<Review>, k: nat, y: Review, q: ProductId)
    requires k < |reviews|
    ensures ReviewsOf(reviews[..k] + [y] + reviews[k + 1..], q)
         == ReviewsOf(reviews[..k], q) + ReviewsOf([y], q) + ReviewsOf(reviews[k + 1..], q)
  {
    ReviewsOfAppend(reviews[..k] + [y], reviews[k + 1..], q);
    ReviewsOfAppend(reviews[..k], [y], q);
  }

  /** Replacing the k-th review by one of the same product leaves the
      reviews of every other product as they were. */
  lemma ReplaceOther(reviews: seq<Review>, k: nat, x: Review, q: ProductId)
    requires k < |reviews| && x.productId == reviews[k].productId != q
    ensures ReviewsOf(reviews[k := x], q) == ReviewsOf(reviews, q)
  {
    assert reviews == reviews[..k] + [reviews[k]] + reviews[k + 1..];
    assert reviews[k := x] == reviews[..k] + [x] + reviews[k + 1..];
    Around(reviews, k, reviews[k], q);
    Around(reviews, k, x, q);
    Single(reviews[k], q);
    Single(x, q);
  }

  /** Replacing one review of a product keeps its count and moves its total
      by the change of that one rating. */
  lemma ReplaceSame(reviews: seq<Review>, k: nat, x: Review)
    requires k < |reviews| && x.productId == reviews[k].productId
    ensures var q := x.productId;
      && |ReviewsOf(reviews[k := x], q)| == |ReviewsOf(reviews, q)|
      && TotalRatings(ReviewsOf(reviews[k := x], q)) == TotalRatings(ReviewsOf(reviews, q)) - reviews[k].ratings + x.ratings
  {
    var q := x.productId;
    assert reviews == reviews[..k] + [reviews[k]] + reviews[k + 1..];
    assert reviews[k := x] == reviews[..k] + [x] + reviews[k + 1..];
    Around(reviews, k, reviews[k], q);
    Around(reviews, k, x, q);
    Single(reviews[k], q);
    Single(x, q);
    var ra, rb := ReviewsOf(reviews[..k], q), ReviewsOf(reviews[k + 1..], q);
    TotalAppend(ra + [reviews[k]], rb);
    TotalAppend(ra, [reviews[k]]);
    TotalAppend(ra + [x], rb);
    TotalAppend(ra, [x]);
  }

  /** Removing the k-th review leaves the reviews of every other product as they were. */
  lemma RemoveOther(reviews: seq<Review>, k: nat, q: ProductId)
    requires k < |reviews| && reviews[k].productId != q
    ensures ReviewsOf(reviews[..k] + reviews[k + 1..], q) == ReviewsOf(reviews, q)
  {
    var a, b := reviews[..k], reviews[k + 1..];
    assert reviews == a + [reviews[k]] + b;
    Around(reviews, k, reviews[k], q);
    Single(reviews[k], q);
    ReviewsOfAppend(a, b, q);
    assert ReviewsOf(a, q) + [] + ReviewsOf(b, q) == ReviewsOf(a, q) + ReviewsOf(b, q);
  }

  /** Appending a review of another product leaves a product's reviews as they were. */
  lemma AppendOther(reviews: seq<Review>, review: Review, q: ProductId)
    requires review.productId != q
    ensures ReviewsOf(reviews + [review], q) == ReviewsOf(reviews, q)
  {
    ReviewsOfAppend(reviews, [review], q);
    Single(review, q);
    assert ReviewsOf(reviews, q) + [] == ReviewsOf(reviews, q);
  }

  /** Removing one review of a product lowers its count by one and its total
      by that rating. */
  lemma RemoveSame(reviews: seq<Review>, k: nat)
    requires k < |reviews|
    ensures var q := reviews[k].productId;
      && |ReviewsOf(reviews[..k] + reviews[k + 1..], q)| == |ReviewsOf(reviews, q)| - 1
      && TotalRatings(ReviewsOf(reviews[..k] + reviews[k + 1..], q)) == TotalRatings(ReviewsOf(reviews, q)) - reviews[k].ratings
  {
    var q := reviews[k].productId;
    assert reviews == reviews[..k] + [reviews[k]] + reviews[k + 1..];
    Around(reviews, k, reviews[k], q);
    Single(reviews[k], q);
    ReviewsOfAppend(reviews[..k], reviews[k + 1..], q);
    var ra, rb := ReviewsOf(reviews[..k], q), ReviewsOf(reviews[k + 1..], q);
    TotalAppend(ra + [reviews[k]], rb);
    TotalAppend(ra, [reviews[k]]);
    TotalAppend(ra, rb);
  }

  /** A write that leaves every other product and its reviews as they were,
      and makes the written product agree with its reviews, keeps the
      statistics consistent. */
  lemma StatsAfterWrite(before: Db, after: Db, pid: ProductId)
    requires StatsConsistent(before)
    requires after.products.Keys == before.products.Keys
    requires forall q :: q in before.products && q != pid ==>
      after.products[q] == before.products[q] && ReviewsOf(after.reviews, q) == ReviewsOf(before.reviews, q)
    requires pid in after.products ==> StatsMatch(after.products[pid], ReviewsOf(after.reviews, pid))
    ensures StatsConsistent(after)
  {
    forall q | q in after.products
      ensures StatsMatch(after.products[q], ReviewsOf(after.reviews, q))
    {
      if q != pid {
        assert q in before.products;
      }
    }
  }

  /** Such a write that also stores a valid product and leaves the reviews
      valid, one per user and product, with distinct ids, keeps a valid store. */
  lemma StoreAfterWrite(before: Db, after: Db, pid: ProductId)
    requires ReviewsValid(before)
    requires after.products.Keys == before.products.Keys
    requires forall q :: q in before.products && q != pid ==>
      after.products[q] == before.products[q] && ReviewsOf(after.reviews, q) == ReviewsOf(before.reviews, q)
    requires pid in after.products ==>
      ValidProduct(after.products[pid]) && StatsMatch(after.products[pid], ReviewsOf(after.reviews, pid))
    requires forall i :: 0 <= i < |after.reviews| ==> ValidReview(after.reviews[i])
    requires OneReviewPerUser(after.reviews) && DistinctReviewIds(after.reviews)
    ensures ReviewsValid(after)
  {
    StatsAfterWrite(before, after, pid);
    forall q | q in after.products
      ensures ValidProduct(after.products[q])
    {
      if q != pid {
        assert q in before.products;
      }
    }
  }

  /** Recomputing a valid product's statistics from valid reviews yields a
      valid product: the mean of ratings in [1, 5] lies in [0, 5]. */
  lemma RecomputedValid(p: Product, rs: seq<Review>)
    requires ValidProduct(p)
    requires forall i :: 0 <= i < |rs| ==> ValidReview(rs[i])
    ensures ValidProduct(Recomputed(p, rs))
  {
    if |rs| > 0 {
      MeanInRange(rs);
    }
  }

  lemma SaveStatsSucceeds(db: Db, productId: ProductId)
    requires productId in db.products && ValidProduct(db.products[productId])
    requires forall i :: 0 <= i < |db.reviews| ==> ValidReview(db.reviews[i])
    ensures SaveStats(db, productId).outcome == Ok
  {
    ReviewsOfValid(db.reviews, productId);
    RecomputedValid(db.products[productId], ReviewsOf(db.reviews, productId));
  }

  /** Appending a valid review with a fresh id by a user who has not
      reviewed the product, then saving the statistics, keeps a valid store. */
  lemma AppendCase(db: Db, review: Review)
    requires ReviewsValid(db) && ValidReview(review) && review.productId in db.products
    requires !HasReviewBy(db.reviews, review.productId, review.userId)
    requires forall i :: 0 <= i < |db.reviews| ==> db.reviews[i].id != review.id
    ensures var r := SaveStats(db.(reviews := db.reviews + [review]), review.productId);
      r.outcome == Ok && ReviewsValid(r.db)
  {
    var pid := review.productId;
    var saved := db.(reviews := db.reviews + [review]);
    SaveStatsSucceeds(saved, pid);
    var p := Recomputed(db.products[pid], ReviewsOf(saved.reviews, pid));
    var after := saved.(products := db.products[pid := p]);
    assert SaveStats(saved, pid) == Response(Ok, after);
    forall q | q in db.products && q != pid
      ensures ReviewsOf(after.reviews, q) == ReviewsOf(db.reviews, q)
    {
      AppendOther(db.reviews, review, q);
    }
    AppendKeepsReviews(db.reviews, review);
    StoreAfterWrite(db, after, pid);
  }

  /** Appending a valid review with a fresh id by a user who has not reviewed
      its product keeps every review valid, one per user and product, and the
      ids distinct. */
  lemma AppendKeepsReviews(reviews: seq<Review>, review: Review)
    requires ValidReview(review) && !HasReviewBy(reviews, review.productId, review.userId)
    requires forall i :: 0 <= i < |reviews| ==> reviews[i].id != review.id
    requires forall i :: 0 <= i < |reviews| ==> ValidReview(reviews[i])
    requires OneReviewPerUser(reviews) && DistinctReviewIds(reviews)
    ensures var all := reviews + [review];
      && (forall i :: 0 <= i < |all| ==> ValidReview(all[i]))
      && OneReviewPerUser(all) && DistinctReviewIds(all)
  {
    var all := reviews + [review];
    assert forall i :: 0 <= i < |reviews| ==> all[i] == reviews[i];
  }

  /** Replacing a review by a valid one with the same id, product and user
      keeps every review valid, one review per user and product, and the ids distinct. */
  lemma ReplaceKeepsReviews(reviews: seq<Review>, k: nat, updated: Review)
    requires k < |reviews| && ValidReview(updated)
    requires updated.id == reviews[k].id && updated.productId == reviews[k].productId
    requires updated.userId == reviews[k].userId
    requires forall i :: 0 <= i < |reviews| ==> ValidReview(reviews[i])
    requires OneReviewPerUser(reviews) && DistinctReviewIds(reviews)
    ensures var rest := reviews[k := updated];
      && (forall i :: 0 <= i < |rest| ==> ValidReview(rest[i]))
      && OneReviewPerUser(rest) && DistinctReviewIds(rest)
  {
  }

  /** Removing a review keeps the others valid, one per user and product, and their ids distinct. */
  lemma RemoveKeepsReviews(reviews: seq<Review>, k: nat)
    requires k < |reviews|
    requires forall i :: 0 <= i < |reviews| ==> ValidReview(reviews[i])
    requires OneReviewPerUser(reviews) && DistinctReviewIds(reviews)
    ensures var rest := reviews[..k] + reviews[k + 1..];
      && (forall i :: 0 <= i < |rest| ==> ValidReview(rest[i]))
      && OneReviewPerUser(rest) && DistinctReviewIds(rest)
  {
    var rest := reviews[..k] + reviews[k + 1..];
    assert forall i :: 0 <= i < |rest| ==> rest[i] == reviews[if i < k then i else i + 1];
  }

  /** Replacing the k-th review by a valid one of the same product, user and
      id, then saving the statistics of its existing product, keeps a valid store. */
  lemma ReplaceCase(db: Db, k: nat, updated: Review)
    requires ReviewsValid(db) && ValidReview(updated) && k < |db.reviews|
    requires updated.id == db.reviews[k].id && updated.productId == db.reviews[k].productId
    requires updated.userId == db.reviews[k].userId
    requires updated.productId in db.products
    ensures var r := SaveStats(db.(reviews := db.reviews[k := updated]), updated.productId);
      r.outcome == Ok && ReviewsValid(r.db)
  {
    var pid, saved := updated.productId, db.(reviews := db.reviews[k := updated]);
    SaveStatsSucceeds(saved, pid);
    var p := Recomputed(db.products[pid], ReviewsOf(saved.reviews, pid));
    var after := saved.(products := db.products[pid := p]);
    assert SaveStats(saved, pid) == Response(Ok, after);
    forall q | q in db.products && q != pid
      ensures ReviewsOf(after.reviews, q) == ReviewsOf(db.reviews, q)
    {
      ReplaceOther(db.reviews, k, updated, q);
    }
    ReplaceKeepsReviews(db.reviews, k, updated);
    StoreAfterWrite(db, after, pid);
  }

  /** The same replacement when the review's product is gone: the review is
      saved, the handler answers 500, and the store stays valid. */
  lemma ReplaceOrphanCase(db: Db, k: nat, updated: Review)
    requires ReviewsValid(db) && ValidReview(updated) && k < |db.reviews|
    requires updated.id == db.reviews[k].id && updated.productId == db.reviews[k].productId
    requires updated.userId == db.reviews[k].userId
    requires updated.productId !in db.products
    ensures ReviewsValid(db.(reviews := db.reviews[k := updated]))
  {
    var saved := db.(reviews := db.reviews[k := updated]);
    forall q | q in db.products
      ensures ReviewsOf(saved.reviews, q) == ReviewsOf(db.reviews, q)
    {
      ReplaceOther(db.reviews, k, updated, q);
    }
    ReplaceKeepsReviews(db.reviews, k, updated);
    StoreAfterWrite(db, saved, updated.productId);
  }

  /** Removing the k-th review, then saving the statistics of its existing
      product, keeps a valid store. */
  lemma RemoveCase(db: Db, k: nat)
    requires ReviewsValid(db) && k < |db.reviews| && db.reviews[k].productId in db.products
    ensures var r := SaveStats(db.(reviews := db.reviews[..k] + db.reviews[k + 1..]), db.reviews[k].productId);
      r.outcome == Ok && ReviewsValid(r.db)
  {
    var pid := db.reviews[k].productId;
    var saved := db.(reviews := db.reviews[..k] + db.reviews[k + 1..]);
    RemoveKeepsReviews(db.reviews, k);
    SaveStatsSucceeds(saved, pid);
    var p := Recomputed(db.products[pid], ReviewsOf(saved.reviews, pid));
    var after := saved.(products := db.products[pid := p]);
    assert SaveStats(saved, pid) == Response(Ok, after);
    forall q | q in db.products && q != pid
      ensures ReviewsOf(after.reviews, q) == ReviewsOf(db.reviews, q)
    {
      RemoveOther(db.reviews, k, q);
    }
    StoreAfterWrite(db, after, pid);
  }

  /** The same removal when the review's product is gone. */
  lemma RemoveOrphanCase(db: Db, k: nat)
    requires ReviewsValid(db) && k < |db.reviews| && db.reviews[k].productId !in db.products
    ensures ReviewsValid(db.(reviews := db.reviews[..k] + db.reviews[k + 1..]))
  {
    var saved := db.(reviews := db.reviews[..k] + db.reviews[k + 1..]);
    RemoveKeepsReviews(db.reviews, k);
    forall q | q in db.products
      ensures ReviewsOf(saved.reviews, q) == ReviewsOf(db.reviews, q)
    {
      RemoveOther(db.reviews, k, q);
    }
    StoreAfterWrite(db, saved, db.reviews[k].productId);
  }

  /** Every outcome of a create, from a valid store and with a fresh id,
      leaves a valid store: the schemas, one review per user and product,
      and statistics that agree with the reviews. */
  lemma CreatePreservesReviewsValid(db: Db, userId: UserId, productId: ProductId, ratings: Option<real>,
                                    description: Option<string>, newId: ReviewId)
    requires ReviewsValid(db)
    requires forall i :: 0 <= i < |db.reviews| ==> db.reviews[i].id != newId
    ensures ReviewsValid(CreateRatingReview(db, userId, productId, ratings, description, newId).db)
  {
    var r := CreateRatingReview(db, userId, productId, ratings, description, newId);
    if productId in db.products && ratings.Some? {
      var review := Review(newId, productId, userId, ratings.value, TrimmedDescription(description));
      if ValidReview(review) && !HasReviewBy(db.reviews, productId, userId) {
        AppendCase(db, review);
        assert r.db == SaveStats(db.(reviews := db.reviews + [review]), productId).db;
      } else {
        assert r.db == db;
      }
    } else {
      assert r.db == db;
    }
  }

  /** From a valid store a create answers 500 exactly when the review itself
      fails its schema: the product save that follows never fails. */
  lemma CreateFailsOnlyOnInvalidReview(db: Db, userId: UserId, productId: ProductId, ratings: Option<real>,
                                       description: Option<string>, newId: ReviewId)
    requires ReviewsValid(db)
    requires forall i :: 0 <= i < |db.reviews| ==> db.reviews[i].id != newId
    ensures CreateRatingReview(db, userId, productId, ratings, description, newId).outcome == ServerError <==>
      productId in db.products && (ratings.None? ||
        !ValidReview(Review(newId, productId, userId, ratings.value, TrimmedDescription(description))))
  {
    if productId in db.products && ratings.Some? {
      var review := Review(newId, productId, userId, ratings.value, TrimmedDescription(description));
      if ValidReview(review) && !HasReviewBy(db.reviews, productId, userId) {
        AppendCase(db, review);
      }
    }
  }

  /** Every outcome of an update leaves a valid store. */
  lemma UpdatePreservesReviewsValid(db: Db, reviewId: ReviewId, who: Principal, ratings: Option<real>,
                                    description: Option<string>)
    requires ReviewsValid(db)
    ensures ReviewsValid(UpdateRatingReview(db, reviewId, who, ratings, description).db)
  {
    var k := ReviewIndex(db.reviews, reviewId);
    if k >= 0 && MayModify(db.reviews[k], who) {
      var updated := MergedReview(db.reviews[k], ratings, description);
      if ValidReview(updated) {
        if updated.productId in db.products {
          ReplaceCase(db, k, updated);
        } else {
          ReplaceOrphanCase(db, k, updated);
        }
      }
    }
  }

  /** From a valid store an authorized update answers 500 exactly when the
      merged review fails its schema or its product is gone: the statistics
      save that follows never fails. */
  lemma UpdateFailsOnlyOnInvalidReview(db: Db, reviewId: ReviewId, who: Principal, ratings: Option<real>,
                                       description: Option<string>)
    requires ReviewsValid(db)
    ensures var k := ReviewIndex(db.reviews, reviewId);
      UpdateRatingReview(db, reviewId, who, ratings, description).outcome == ServerError <==>
        && k >= 0 && MayModify(db.reviews[k], who)
        && (!ValidReview(MergedReview(db.reviews[k], ratings, description))
            || db.reviews[k].productId !in db.products)
  {
    var k := ReviewIndex(db.reviews, reviewId);
    if k >= 0 && MayModify(db.reviews[k], who) {
      var updated := MergedReview(db.reviews[k], ratings, description);
      if ValidReview(updated) && updated.productId in db.products {
        ReplaceCase(db, k, updated);
      }
    }
  }

  /** A successful update keeps the product's review count, and moves the
      total of its ratings by the change of the one rating. */
  lemma UpdateShiftsTotal(db: Db, reviewId: ReviewId, who: Principal, ratings: Option<real>,
                          description: Option<string>)
    requires StatsConsistent(db)
    requires UpdateRatingReview(db, reviewId, who, ratings, description).outcome == Ok
    ensures var r := UpdateRatingReview(db, reviewId, who, ratings, description);
      var k := ReviewIndex(db.reviews, reviewId);
      var pid := db.reviews[k].productId;
      && r.db.products[pid].numberOfReviews == db.products[pid].numberOfReviews
      && TotalRatings(ReviewsOf(r.db.reviews, pid))
         == TotalRatings(ReviewsOf(db.reviews, pid)) - db.reviews[k].ratings + r.db.reviews[k].ratings
  {
    var k := ReviewIndex(db.reviews, reviewId);
    ReplaceSame(db.reviews, k, MergedReview(db.reviews[k], ratings, description));
  }

  /** Every outcome of a delete leaves a valid store. */
  lemma DeletePreservesReviewsValid(db: Db, reviewId: ReviewId, who: Principal)
    requires ReviewsValid(db)
    ensures ReviewsValid(DeleteRatingReview(db, reviewId, who).db)
  {
    var r := DeleteRatingReview(db, reviewId, who);
    var k := ReviewIndex(db.reviews, reviewId);
    if k >= 0 && MayModify(db.reviews[k], who) {
      var saved := db.(reviews := db.reviews[..k] + db.reviews[k + 1..]);
      if db.reviews[k].productId in db.products {
        RemoveCase(db, k);
        assert r == SaveStats(saved, db.reviews[k].productId);
      } else {
        RemoveOrphanCase(db, k);
        assert r.db == saved;
      }
    } else {
      assert r.db == db;
    }
  }

  /** From a valid store an authorized delete answers 500 exactly when the
      review's product is gone. */
  lemma DeleteFailsOnlyOnMissingProduct(db: Db, reviewId: ReviewId, who: Principal)
    requires ReviewsValid(db)
    ensures var k := ReviewIndex(db.reviews, reviewId);
      DeleteRatingReview(db, reviewId, who).outcome == ServerError <==>
        k >= 0 && MayModify(db.reviews[k], who) && db.reviews[k].productId !in db.products
  {
    var k := ReviewIndex(db.reviews, reviewId);
    if k >= 0 && MayModify(db.reviews[k], who) && db.reviews[k].productId in db.products {
      RemoveCase(db, k);
    }
  }

  /** A successful delete lowers the product's review count by one and the
      total of its ratings by the removed rating. */
  lemma DeleteLowersCount(db: Db, reviewId: ReviewId, who: Principal)
    requires StatsConsistent(db)
    requires DeleteRatingReview(db, reviewId, who).outcome == Ok
    ensures var r := DeleteRatingReview(db, reviewId, who);
      var k := ReviewIndex(db.reviews, reviewId);
      var pid := db.reviews[k].productId;
      && r.db.products[pid].numberOfReviews == db.products[pid].numberOfReviews - 1
      && TotalRatings(ReviewsOf(r.db.reviews, pid)) == TotalRatings(ReviewsOf(db.reviews, pid)) - db.reviews[k].ratings
  {
    RemoveSame(db.reviews, ReviewIndex(db.reviews, reviewId));
  }

  /** Once a user's review of a product is stored, a second valid review of it
      by the same user is refused with 400 and changes nothing. */
  lemma SecondReviewRefused(db: Db, userId: UserId, productId: ProductId, first: real, second: real,
                            id1: ReviewId, id2: ReviewId)
    requires CreateRatingReview(db, userId, productId, Some(first), None, id1).outcome == Created
    requires MinRating <= second <= MaxRating
    ensures var after := CreateRatingReview(db, userId, productId, Some(first), None, id1).db;
      CreateRatingReview(after, userId, productId, Some(second), None, id2)
        == Response(BadRequest("User has already reviewed this product"), after)
  {
    var after := CreateRatingReview(db, userId, productId, Some(first), None, id1).db;
    assert after.reviews[|db.reviews|].productId == productId && after.reviews[|db.reviews|].userId == userId;
  }
}
