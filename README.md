# E-commerce backend core in Dafny

This project models the logic-bearing core of a small e-commerce backend made of several Express services over MongoDB.

- **Cart service.** Each user has one cart and one wishlist. Each is an ordered list of `(productId, quantity)` lines, edited in place by the handlers:
  - add (merge or append);
  - set quantity (overwrite, or remove at 0 or below);
  - remove one line;
  - clear.
- **Product service.** Its handlers guard and merge documents of four collections: products, rating reviews, coupons and categories.
  - After every change to a product's reviews, its cached `numberOfReviews` / `averageRating` are recomputed from all of them.
  - A separate PATCH endpoint updates them incrementally.
- **Mongoose schemas.** They define the records and the validation a `save` runs: bounds, required fields, defaults, `trim` / `uppercase` / `lowercase` setters and unique indexes.

Modules, in dependency order:

| module | file | what it holds |
|---|---|---|
| `Common` | common.dfy | ids, `Option`, `Arg` (`undefined` vs `null`), `Principal`, `Outcome` (200/201/400/403/404/500), JavaScript `\|\|` and `!== undefined` |
| `Text` | text.dfy | the `trim` / `uppercase` / `lowercase` setters; `split(",")` and `join` |
| `Models` | models.dfy | one datatype per schema, its validity predicate, the unique indexes, the product-service store `Db` |
| `LineItems` | line_items.dfy | the line-list engine shared by carts and wishlists: `findIndex`, summing add, replacing add, splice, set quantity |
| `Carts` | cart.dfy | class `CartStore` (a `map` of user to lines) with one method per cart handler |
| `Wishlists` | wishlist.dfy | class `WishlistStore`; the save validates `quantity >= 1`; the add handler as written and as intended |
| `Ratings` | ratings.dfy | the reduce fold, the recomputed statistics, the review handlers, store invariants |
| `Products` | products.dfy | the listing filter, the name guard, the update merge, the incremental rating PATCH |
| `Coupons` | coupons.dfy | validation's decision chain, the active listing, the code guard, the update merge, the `$pull` of delete |
| `Categories` | categories.dfy | name/slug and parent guards, the update merge (as written and as intended), delete guards |

How handlers are modelled:

- **Cart and wishlist handlers** change state. They are methods of a class whose field is reassigned; the `findIndex` scan is a method with a loop (`LineItems.FindIndex`). Each method's `ensures` states the new map of lists in terms of the specification functions of `LineItems`. The properties (no duplicate product, other lines unchanged, order kept, summing versus overwriting) are proved about those functions.
- **Product-service handlers** are functions from a `Db` (the collections) and the request to a `Response(outcome, db)`. A save that the schema refuses answers `ServerError` and stores nothing. The duplicate-key error of the review index answers 400, as the handler's catch does.
- **Setters on queries.** Mongoose applies a path's setters to query values too. So a coupon code is looked up upper-cased and trimmed, a category slug lower-cased and trimmed, and a category name trimmed.
- **Inputs that belong to other code.** The clock (`now`), the id the store assigns (`newId`) and the authenticated principal are parameters.

## Model

| member | source | states |
|---|---|---|
| LineItems.IndexOf | services/cart/controllers/cart.controller.js:49-51 | `findIndex`: the first line of the product, with no earlier one; -1 exactly when the list has none |
| LineItems.FindIndex | services/cart/controllers/cart.controller.js:49-52 | the scan returns exactly `IndexOf` (loop with invariants) |
| LineItems.AddSumming | services/cart/controllers/cart.controller.js:49-58 | the product's quantity grows by the added amount; other products' quantities and lines stay unchanged; an absent product is appended at the end; no duplicates are introduced |
| LineItems.AddReplacing | services/cart/controllers/wishlist.controller.js:50-59 | a repeat add overwrites with a truthy quantity and keeps the old one otherwise (never sums); a missing quantity becomes the schema default 1 on a new line; other lines stay unchanged; no duplicates are introduced |
| LineItems.RemoveLine | services/cart/controllers/cart.controller.js:132-139 | `splice(index, 1)`: one line fewer; the lines before keep their place, the lines after shift by one; in a list without duplicates the product is gone |
| LineItems.SetQuantity | services/cart/controllers/cart.controller.js:96-102 | a quantity <= 0 is exactly `RemoveLine`; any other overwrites that product's quantity, leaving length and other lines unchanged |
| LineItems.QuantityAfterRemove | services/cart/controllers/cart.controller.js:139 | removing one product's line changes no other product's quantity |
| LineItems.RemoveLineIsExact | services/cart/controllers/cart.controller.js:127-139 | after a removal the product has no line and every other quantity is as before |
| LineItems.CartAddTwiceSums | services/cart/controllers/cart.controller.js:52-58 | adding a product twice leaves one line holding q1 + q2 |
| LineItems.WishlistAddTwiceOverwrites | services/cart/controllers/wishlist.controller.js:53-59 | adding a product twice, the second time with a truthy q2, leaves one line holding q2 |
| LineItems.IndexOfAfterAppend | services/cart/controllers/cart.controller.js:57 | a push of another product leaves a product's first line where it was |
| LineItems.DistinctAfterAppend | services/cart/controllers/cart.controller.js:56-58 | pushing a product the list does not hold keeps it free of duplicates |
| Carts.CartStore.constructor | services/cart/controllers/cart.controller.js:43-46 | a store with no carts, trivially valid |
| Carts.CartStore.AddToCart | services/cart/controllers/cart.controller.js:38-58 | 404 and no change for an unknown product; a user without a cart gets exactly `[(productId, quantity)]`; otherwise the summing add; no duplicates are introduced |
| Carts.CartStore.UpdateCartItem | services/cart/controllers/cart.controller.js:84-101 | 404 for a missing cart or product, with no change; otherwise `SetQuantity`; no duplicates are introduced |
| Carts.CartStore.RemoveFromCart | services/cart/controllers/cart.controller.js:127-139 | 404 for a missing cart or product, with no change; otherwise exactly that line is spliced out |
| Carts.CartStore.ClearCart | services/cart/controllers/cart.controller.js:161-166 | 404 only without a cart; otherwise the list becomes empty |
| Carts.RemoveTwice | services/cart/controllers/cart.controller.js:135-139 | removal is not idempotent: the second removal answers 404 |
| Carts.ClearTwice | services/cart/controllers/cart.controller.js:161-167 | clearing twice succeeds both times and leaves the same empty list |
| Models.WishlistLine | shared/models/Wishlist.js:18-22 | a pushed line keeps its product, and its quantity defaults to 1 when absent |
| Wishlists.WishlistStore.constructor | shared/models/Wishlist.js:5-10 | a store with no wishlists, trivially valid |
| Wishlists.WishlistStore.Save | shared/models/Wishlist.js:18-23 | the save stores the lines exactly when every quantity is at least 1; otherwise it answers 500 and stores nothing |
| Wishlists.WishlistStore.MergeIntoExisting | services/cart/controllers/wishlist.controller.js:48-63 | the existing-wishlist branch stores `AddReplacing` when it validates, and answers 500 otherwise |
| Wishlists.WishlistStore.AddToWishlistAsWritten | services/cart/controllers/wishlist.controller.js:38-76 | as written: 404 for an unknown product; a user without a wishlist always gets 500 and nothing is saved; otherwise the merge |
| Wishlists.WishlistStore.AddToWishlist | services/cart/controllers/wishlist.controller.js:38-63 | as intended: a user without a wishlist gets exactly the new line when it validates; otherwise as written |
| Wishlists.WishlistStore.UpdateWishlistItem | services/cart/controllers/wishlist.controller.js:86-106 | 404 for a missing wishlist or product; otherwise `SetQuantity`; on a valid store an integer quantity always validates |
| Wishlists.WishlistStore.RemoveFromWishlist | services/cart/controllers/wishlist.controller.js:129-142 | 404 for a missing wishlist or product; otherwise exactly that line is removed |
| Wishlists.WishlistStore.ClearWishlist | services/cart/controllers/wishlist.controller.js:163-169 | 404 only without a wishlist; otherwise the list becomes empty |
| Wishlists.FirstAddAsWritten | services/cart/controllers/wishlist.controller.js:44-47 | as written, a first add answers 500 and leaves the store empty |
| Wishlists.FirstAdd | services/cart/controllers/wishlist.controller.js:44-46 | as intended, a first add creates the wishlist with exactly that line |
| Wishlists.NegativeRepeatAdd | shared/models/Wishlist.js:22 | a truthy negative quantity on a repeat add fails at save and leaves the stored quantity |
| Ratings.ReviewsOf | services/product/controllers/ratingreview.controller.js:33 | `find({ productId })` returns reviews of that product only, never more than stored |
| Ratings.ReviewsOfAppend | services/product/controllers/ratingreview.controller.js:33 | the product filter distributes over concatenation |
| Ratings.TotalAppend | services/product/controllers/ratingreview.controller.js:34-37 | the reduce sum distributes over concatenation |
| Ratings.TotalBounds | shared/models/RatingReview.js:15-19 | n valid ratings sum to between n and 5n |
| Ratings.MeanInRange | shared/models/RatingReview.js:15-19 | the mean of valid ratings lies in [1, 5] |
| Ratings.Recomputed | services/product/controllers/ratingreview.controller.js:171-176 | the recomputed statistics agree with the reviews (count, average x count = sum), are 0 and 0 without reviews, and touch no other field |
| Ratings.SaveStats | services/product/controllers/ratingreview.controller.js:38-40 | the product is saved with the recomputed statistics when it validates, else 500 with nothing saved |
| Ratings.ReviewIndex | services/product/controllers/ratingreview.controller.js:101 | `findById`: the review's position, or -1 when no review has the id |
| Ratings.CreateRatingReview | services/product/controllers/ratingreview.controller.js:11-54 | 404 exactly for an unknown product, with no change; 400 exactly for a valid review by a user who already reviewed the product, with no change; no outcome besides 201, 400, 404 and 500; on 201 the new store is exactly the old one with the review appended and that product's statistics recomputed from its reviews, every other field, product and collection unchanged |
| Ratings.MergedReview | services/product/controllers/ratingreview.controller.js:118-120 | a falsy rating or description keeps the stored one; id, product and author never change |
| Ratings.UpdateRatingReview | services/product/controllers/ratingreview.controller.js:98-143 | 404 exactly for a missing review; 403 exactly when the requester is neither author, admin nor seller, with no change; 500 exactly for an authorized request whose merged review fails its schema, whose product is gone, or whose recomputed product fails its schema; no other outcome besides 200; on 200 the new store is exactly the old one with the review merged and its product's statistics recomputed, everything else unchanged |
| Ratings.DeleteRatingReview | services/product/controllers/ratingreview.controller.js:147-183 | 404 exactly for a missing review; 403 by the same rule; 500 exactly for an authorized request whose product is gone or whose recomputed product fails its schema; no other outcome besides 200; on 200 the new store is exactly the old one with the review spliced out and its product's statistics recomputed (average 0 when none is left), everything else unchanged |
| Ratings.ReplaceOther | services/product/controllers/ratingreview.controller.js:118-126 | an update leaves other products' reviews unchanged |
| Ratings.ReplaceSame | services/product/controllers/ratingreview.controller.js:118-130 | an update keeps the product's count and moves its total by the rating change |
| Ratings.RemoveOther | services/product/controllers/ratingreview.controller.js:165-169 | a delete leaves other products' reviews unchanged |
| Ratings.RemoveSame | services/product/controllers/ratingreview.controller.js:165-176 | a delete lowers the product's count by one and its total by that rating |
| Ratings.AppendOther | services/product/controllers/ratingreview.controller.js:30-33 | a create leaves other products' reviews unchanged |
| Ratings.StatsAfterWrite | services/product/controllers/ratingreview.controller.js:131-134 | a write that changes only one product, and makes it agree with its reviews, keeps every product's statistics consistent |
| Ratings.RecomputedValid | shared/models/Product.js:64-74 | statistics recomputed from valid reviews pass the product schema |
| Ratings.SaveStatsSucceeds | services/product/controllers/ratingreview.controller.js:38-40 | on a valid product and valid reviews the statistics save never fails |
| Ratings.AppendKeepsReviews | shared/models/RatingReview.js:33 | a new review by a user who has not reviewed the product keeps one review per (product, user) |
| Ratings.ReplaceKeepsReviews | shared/models/RatingReview.js:33 | an update keeps one review per (product, user) and the ids distinct |
| Ratings.RemoveKeepsReviews | shared/models/RatingReview.js:33 | a removal keeps one review per (product, user) and the ids distinct |
| Ratings.CreatePreservesReviewsValid | services/product/controllers/ratingreview.controller.js:11-54 | every outcome of a create keeps the schemas, the unique index and consistent statistics |
| Ratings.CreateFailsOnlyOnInvalidReview | services/product/controllers/ratingreview.controller.js:30-40 | on a valid store a create answers 500 exactly when the review itself fails its schema |
| Ratings.UpdatePreservesReviewsValid | services/product/controllers/ratingreview.controller.js:98-143 | every outcome of an update keeps the store valid |
| Ratings.UpdateFailsOnlyOnInvalidReview | services/product/controllers/ratingreview.controller.js:98-143 | on a valid store an authorized update answers 500 exactly when the merged review fails its schema or its product is gone; otherwise it succeeds |
| Ratings.UpdateShiftsTotal | services/product/controllers/ratingreview.controller.js:118-134 | a successful update keeps the count and shifts the total by the one rating change |
| Ratings.DeletePreservesReviewsValid | services/product/controllers/ratingreview.controller.js:147-183 | every outcome of a delete keeps the store valid |
| Ratings.DeleteFailsOnlyOnMissingProduct | services/product/controllers/ratingreview.controller.js:147-183 | on a valid store an authorized delete answers 500 exactly when the review's product is gone; otherwise it succeeds |
| Ratings.DeleteLowersCount | services/product/controllers/ratingreview.controller.js:165-177 | a successful delete lowers the count by one and the total by the removed rating |
| Ratings.SecondReviewRefused | services/product/controllers/ratingreview.controller.js:47-51 | a second review of a product by the same user is refused with 400 and changes nothing |
| Products.BuildQuery | services/product/controllers/product.controller.js:13-22 | the query keeps the category; it holds tags exactly when the tags string is non-empty, and then the `$in` list is the comma split of that string; both price bounds are kept |
| Products.GetAllProducts | services/product/controllers/product.controller.js:15-25 | exactly the stored products the query selects, unchanged |
| Products.BothPriceBoundsKept | services/product/controllers/product.controller.js:17-22 | with minPrice and maxPrice, a product is listed exactly when its price lies between them |
| Products.SplitAB | services/product/controllers/product.controller.js:16 | `"a,b".split(",")` is `["a", "b"]` |
| Products.CommaSeparatedTags | services/product/controllers/product.controller.js:16 | tags "a,b" list a product exactly when it has tag a or tag b |
| Products.TagFilter | services/product/controllers/product.controller.js:13-16 | for any tags string, a product is listed exactly when the string is empty or some comma-separated value of it, trimmed, is one of the product's tags |
| Products.AnyTagOfTrimmed | services/product/controllers/product.controller.js:16 | with trimmed query values the `$in` match is plain equality |
| Products.TrimAll | shared/models/Product.js:45-50 | every tag is trimmed, none is added or lost |
| Products.NewProduct | services/product/controllers/product.controller.js:109-121 | a product exists exactly when price, title and both descriptions are present; it holds the trimmed name and title, the given price, descriptions and details, the trimmed tags (empty when absent), images, categories and coupons (empty when absent), discount 0 when undefined, and statistics 0 |
| Products.CreateProduct | services/product/controllers/product.controller.js:103-131 | 400 exactly when a product already has the (trimmed) name; 500 exactly when the name is free and the body lacks a required field or fails the schema; on 201 the new product is stored under the new id; otherwise nothing changes |
| Products.CreateKeepsProductsValid | shared/models/Product.js:5-10 | a create keeps every product valid and the names unique |
| Products.MergeProduct | services/product/controllers/product.controller.js:166-178 | `x \|\| old` for every field: a falsy value keeps the old one and a truthy one replaces it (name and title trimmed, tags trimmed element by element); discount is replaced whenever defined (0 included); statistics untouched |
| Products.UpdateProduct | services/product/controllers/product.controller.js:152-180 | 404 exactly for a missing product; 400 exactly for a truthy changed name that some product holds; 500 exactly when the guard passes and the merged product fails the schema; on 200 the merged product is stored; no other outcome |
| Products.EmptyUpdateIsIdentity | services/product/controllers/product.controller.js:166-178 | an empty body succeeds and changes nothing |
| Products.ZeroDiscountAppliedZeroPriceIgnored | services/product/controllers/product.controller.js:167-177 | a discount of 0 is applied; a price of 0 keeps the old price |
| Products.UpdateKeepsProductsValid | services/product/controllers/product.controller.js:157-163 | updates keep product names unique and products valid |
| Products.Patched | services/product/controllers/product.controller.js:222-225 | the count grows by exactly 1 and new average x new count = old average x old count + rating; no other field changes |
| Products.UpdateProductRating | services/product/controllers/product.controller.js:207-227 | 404 before the range check; 400 exactly for a rating outside [0, 5], with no change; on 200 the patched valid product is stored |
| Products.IncrementalMeanInRange | services/product/controllers/product.controller.js:222-225 | the incremental mean stays in [0, 5] when the old mean and the rating do |
| Products.RatingPatchSucceeds | services/product/controllers/product.controller.js:215-227 | on a valid product with a rating in range the PATCH always succeeds |
| Products.IncrementalMatchesRecompute | services/product/controllers/product.controller.js:222-225 | the incremental formula equals the recomputation from all reviews plus one new review |
| Products.RatingPatchBreaksConsistency | services/product/controllers/product.controller.js:221-227 | the PATCH stores no review, so it always leaves the statistics disagreeing with the stored reviews |
| Coupons.FindFrom | services/product/controllers/coupon.controller.js:15 | the first matching coupon from a position on, or none when none matches |
| Coupons.Find | services/product/controllers/coupon.controller.js:15 | `findOne`: the first matching coupon, or none exactly when none matches |
| Coupons.AppendKeepsValid | shared/models/Coupon.js:6-12 | a valid coupon with a new code and id keeps the coupon store valid |
| Coupons.ReplaceKeepsValid | shared/models/Coupon.js:6-12 | replacing a coupon by a valid one with its id and an unused code keeps the store valid |
| Coupons.FindOwnCode | services/product/controllers/coupon.controller.js:15-18 | in a valid store a coupon is found by its own code exactly when it is active |
| Coupons.FindOwnId | services/product/controllers/coupon.controller.js:135 | in a valid store a coupon is found by its own id |
| Coupons.FoundIds | services/product/controllers/coupon.controller.js:28 | `find({ _id: { $in } })` returns exactly the requested ids that exist |
| Coupons.FoundCount | services/product/controllers/coupon.controller.js:28-31 | the count equals the number requested exactly when all exist and none repeats |
| Coupons.ValidateCoupon | services/product/controllers/coupon.controller.js:11-59 | in order: 404 exactly when no active coupon has the code; expired exactly when now > expiration; "Some products not found" exactly when a requested id is missing or repeated; 200 exactly when accepted (applicable to a requested product or none requested), with payload the six public fields |
| Coupons.OwnCodeValidates | services/product/controllers/coupon.controller.js:15-23 | a stored coupon under its own code: 404 when inactive, expired after its date, valid otherwise |
| Coupons.ValidUntilExpiration | services/product/controllers/coupon.controller.js:21-23 | valid at the expiration instant, expired one tick later |
| Coupons.RepeatedProductRefused | services/product/controllers/coupon.controller.js:27-31 | naming one product twice is refused as missing products |
| Coupons.ActiveAt | services/product/controllers/coupon.controller.js:65-68 | exactly the active coupons with expiration >= now |
| Coupons.GetActiveCoupons | services/product/controllers/coupon.controller.js:63-77 | the listing holds exactly the active, not yet expired coupons |
| Coupons.ListedIffValidates | services/product/controllers/coupon.controller.js:15-23 | a coupon is listed exactly when it validates under its own code with no products |
| Coupons.MaxOr | services/product/controllers/coupon.controller.js:156-159 | `!== undefined` on the nullable maximum: undefined keeps, null clears, a value replaces |
| Coupons.NewCoupon | services/product/controllers/coupon.controller.js:100-108 | a coupon exists exactly when type, value and date are present; it holds the new id, the normalised code, the given type, value and date, isActive true, min 0 when undefined and max null when undefined |
| Coupons.CreateCoupon | services/product/controllers/coupon.controller.js:94-110 | 400 exactly when some coupon, active or not, holds the normalised code; 500 exactly when the code is free and the body lacks a required field or fails the schema; on 201 the coupon is appended; otherwise nothing changes |
| Coupons.CreateKeepsCouponsValid | shared/models/Coupon.js:6-12 | creates keep the coupon store valid, codes unique |
| Coupons.CreatedCouponValidates | services/product/controllers/coupon.controller.js:95-108 | a created coupon validates under its code until expiry, and a second create with that code is refused |
| Coupons.MergeCoupon | services/product/controllers/coupon.controller.js:148-161 | `x \|\| old` for code (normalised), type, value and date; `!== undefined` for min, max and isActive, where a null max clears it and a value replaces it; the id never changes |
| Coupons.UpdateCoupon | services/product/controllers/coupon.controller.js:135-163 | 404 exactly for a missing id; 400 exactly for a truthy code differing, as sent, from the stored one whose normal form some coupon holds; 500 exactly when the guard passes and the merge fails the schema; on 200 the merged coupon replaces it; no other outcome |
| Coupons.UpdateKeepsCouponsValid | shared/models/Coupon.js:6-12 | updates keep codes unique and coupons valid |
| Coupons.ZeroValueKeptFalseActiveApplied | services/product/controllers/coupon.controller.js:151-161 | a discount value of 0 keeps the old one; isActive false deactivates, after which the coupon no longer validates |
| Coupons.OwnCodeInLowerCaseRefused | services/product/controllers/coupon.controller.js:141-146 | resending the stored code "SAVE" as "save" is refused as already in use |
| Coupons.Pull | services/product/controllers/coupon.controller.js:186 | `$pull` leaves no occurrence of the id |
| Coupons.PullAppend | services/product/controllers/coupon.controller.js:186 | the pull distributes over concatenation, so it keeps the other ids in order |
| Coupons.PullCounts | services/product/controllers/coupon.controller.js:186 | every other id keeps its number of occurrences |
| Coupons.PullAbsent | services/product/controllers/coupon.controller.js:185 | a list without the id is left as it is |
| Coupons.PullEverywhere | services/product/controllers/coupon.controller.js:184-187 | every product keeps its key and loses the id |
| Coupons.DeleteCoupon | services/product/controllers/coupon.controller.js:176-193 | 404 exactly for an unknown id, with no change; otherwise the coupon is removed and every product's couponCodes pulled, with nothing else changed |
| Coupons.DeleteLeavesNoReference | services/product/controllers/coupon.controller.js:178-187 | afterwards no product refers to the coupon, other ids keep their counts, and a second delete answers 404 |
| Text.TrimStart | shared/models/Category.js:10 | drops exactly the leading white space |
| Text.TrimEnd | shared/models/Category.js:10 | drops exactly the trailing white space |
| Text.Trim | shared/models/Category.js:10 | the result is trimmed and no longer than the input |
| Text.TrimIdempotent | shared/models/Category.js:10 | trimming twice is trimming once |
| Text.TrimKeepsNoCase | shared/models/Coupon.js:10-11 | trimming adds no letter of either case |
| Text.NormalizeCode | shared/models/Coupon.js:10-11 | a stored code is trimmed and has no lower-case letter |
| Text.NormalizeSlug | shared/models/Category.js:16-17 | a stored slug is trimmed and has no upper-case letter |
| Text.NormalCodeIsFixed | shared/models/Coupon.js:10-11 | a code the setters would leave alone is its own normal form |
| Text.NormalizeCodeIdempotent | shared/models/Coupon.js:10-11 | normalising a stored code again changes nothing |
| Text.NormalizeSlugIdempotent | shared/models/Category.js:16-17 | normalising a stored slug again changes nothing |
| Text.Split | services/product/controllers/product.controller.js:16 | `split` yields at least one piece, none containing the separator |
| Text.JoinOfSplit | services/product/controllers/product.controller.js:16 | joining the pieces of a split gives the string back |
| Text.SplitOfJoin | services/product/controllers/product.controller.js:16 | splitting the join of separator-free pieces gives the pieces back |
| Categories.NewCategory | services/product/controllers/category.controller.js:95-100 | the name is trimmed, the slug normalised, the description trimmed, and the parent stored as given (null when falsy) |
| Categories.CreateCategory | services/product/controllers/category.controller.js:73-111 | 400 exactly when a category holds the name or the slug; then 400 exactly for a missing supplied parent; 500 exactly when both guards pass and the new category fails the schema; on 201 it is stored; otherwise nothing changes |
| Categories.CreateKeepsCategoriesValid | shared/models/Category.js:6-28 | creates keep schemas, unique keys, existing parents and no self-parent |
| Categories.InsertKeepsValid | shared/models/Category.js:6-18 | a valid category with fresh keys and an existing parent keeps the store valid |
| Categories.StoreKeepsValid | shared/models/Category.js:6-28 | storing a valid category whose keys no other holds, with an existing parent other than itself, keeps the store valid |
| Categories.MergeCategory | services/product/controllers/category.controller.js:154-158 | `x \|\| old` for name, slug and description (through their setters); `!== undefined` for the parent, so null makes a root |
| Categories.ApplyUpdate | services/product/controllers/category.controller.js:136-160 | for a truthy changed parent: 400 exactly when it is missing, then 400 exactly when it is the category itself; 500 exactly when both pass and the merged category fails the schema; on 200 the merged category is stored |
| Categories.UpdateCategoryAsWritten | services/product/controllers/category.controller.js:115-169 | as written: 404 for a missing id; 400 exactly when a key changes and any category, itself included, holds the sent name or slug; else `ApplyUpdate` |
| Categories.UpdateCategory | services/product/controllers/category.controller.js:124-134 | as intended: 400 exactly when a key changes and another category holds the sent name or slug; else `ApplyUpdate` |
| Categories.ResentNameBlocksSlugChange | services/product/controllers/category.controller.js:125-133 | as written, resending the own name with a new slug is refused |
| Categories.ResentNameAllowsSlugChange | services/product/controllers/category.controller.js:124-160 | as intended, the same update succeeds and changes only the slug |
| Categories.IntendedAgreesWhenWrittenPasses | services/product/controllers/category.controller.js:124-134 | whenever the written guard passes, the intended handler answers the same |
| Categories.UpdateKeepsCategoriesValid | services/product/controllers/category.controller.js:124-160 | intended updates keep schemas, unique keys, existing parents and no self-parent |
| Categories.TwoCycleAccepted | services/product/controllers/category.controller.js:145-150 | only direct self-parenting is guarded: two categories can become each other's parent |
| Categories.DeleteCategory | services/product/controllers/category.controller.js:173-204 | in order: 404 exactly for a missing id; 400 exactly with subcategories; 400 exactly when products use it; otherwise only that category is removed |
| Categories.DeleteLeavesNoReference | services/product/controllers/category.controller.js:181-198 | after a delete the category store stays valid, no product lists the id, and products name only stored categories if they did before |

## Left out

- HTTP and Express plumbing, population of references, JSON formatting and the read-only handlers (`getUserCart`, `getAllCarts`, `getCartByUserId`, the wishlist and rating reads, `getProductById`, `getAllCoupons`, `getCouponById`, the category reads): they are lookups with no logic of their own.
- `deleteProduct`: it is a plain lookup-and-delete with no guard, and it has no listed property.
- Gateway proxying, authentication and authorisation middleware, password hashing and JWT handling: these are foreign calls. The authenticated principal is a parameter.
- The regex name/description search (`search` in the listing and `searchProducts`): it uses MongoDB regular-expression semantics, which are not modelled. `Products.GetAllProducts` is the listing without `search`.
- Concurrency: each handler is one sequential step. Lost updates between concurrent requests, and the non-atomic review-save followed by product-save, are not modelled.
- Floating point: prices, ratings and averages are `real`. IEEE rounding, `parseFloat`, and NaN from missing or non-numeric input are not modelled.
- The clock: "now" is an integer parameter, and dates are instants on that integer clock.
- Ids are plain values compared for equality. ObjectId casting, `toString()` comparisons and invalid-id cast errors are not modelled.
- The Cart schema file is not part of this model. Cart lines have the wishlist line shape with no schema bound, so a cart save always succeeds.
- Required string fields of a create body (a coupon code, a category name, a product name) are modelled as present strings. MongoDB's treatment of an `undefined` value inside a filter is not modelled.
- Categories.CreateCategory: the schema does not require a slug, but a create without one is not modelled: the slug is always a string (an empty one is accepted). An absent slug would reach the `$or` lookup as `undefined` and the unique slug index as a missing value; neither is modelled.
- Wishlists.WishlistStore.UpdateWishlistItem, Wishlists.WishlistStore.AddToWishlist, Wishlists.WishlistStore.MergeIntoExisting and the methods of Carts.CartStore: quantities are integers. A fractional quantity (0.5 passes `quantity <= 0` and then fails the wishlist's `min: 1` at save), a non-numeric one, and a quantity missing from an update body (it reaches neither branch and overwrites the line's quantity with `undefined`) are not modelled.
- Products.MergeProduct: a `null` discount, which `!== undefined` would store, is not modelled; the discount is a number or absent.
- Carts.CartStore.AddToCart: a missing quantity (`undefined`, which would store NaN after `+=`) is not modelled; the quantity is an integer.
- Coupon body fields: a falsy `expirationDate` and an absent one are both `None`, since the handler's `||` treats them alike. A `null` minPurchaseAmount is not told apart from a number.
- Coupons.UpdateCoupon: a save refused by the unique code index on a store that already holds duplicate codes is not modelled. On a valid store the guard leaves no duplicate code for the save (`Coupons.UpdateKeepsCouponsValid`).
- String setters work on ASCII letters only. The white space set is the ASCII controls, the space, no-break space and the byte-order mark. Unicode case mapping and the full white-space class are not modelled.
- Unused schemas (Order, IndividualInventory, MasterInventory, User): no modelled operation uses them.

## Findings

| source | as written | input that shows it | evidently intended | confidence | as-written member | corrected member |
|---|---|---|---|---|---|---|
| services/cart/controllers/wishlist.controller.js:47 | the no-wishlist branch evaluates an undefined identifier after building the new wishlist, so it throws a ReferenceError, the catch answers 500 and nothing is saved | a first add by a user without a wishlist, e.g. `FirstAddAsWritten` on an empty store | the user gets a new wishlist holding exactly the added line | not executed | Wishlists.WishlistStore.AddToWishlistAsWritten (counterexample Wishlists.FirstAddAsWritten) | Wishlists.WishlistStore.AddToWishlist (with Wishlists.FirstAdd) |
| services/product/controllers/category.controller.js:124-134 | the uniqueness lookup `$or: [{ name }, { slug }]` is not restricted to other categories, so it also finds the category being updated | category 0 named and slugged "a", updated with name "a" and slug "b" (`Categories.ResentNameBlocksSlugChange`) answers 400 | only another category holding the name or slug blocks the update, as the code comment says | not executed | Categories.UpdateCategoryAsWritten (counterexample Categories.ResentNameBlocksSlugChange) | Categories.UpdateCategory (with Categories.ResentNameAllowsSlugChange and Categories.UpdateKeepsCategoriesValid) |
