/** The wishlist handlers of services/cart/controllers/wishlist.controller.js.
    A user has at most one wishlist (the unique `userId` index); a handler
    loads it, edits its `products` list in place and saves it, and the save
    rejects a line whose quantity is below 1 (a validation error, answered
    with 500 by the handler's catch). */
module Wishlists {
  import opened Common
  import opened Models
  import opened LineItems

  class WishlistStore {
    /** The `products` list of every user's wishlist, keyed by the owner. */
    var wishlists: map<UserId, seq<Line>>

    /** Every saved list passed the schema (quantities of at least 1) and holds
        no two lines of one product. */
    ghost predicate Valid()
      reads this
    {
      forall u :: u in wishlists ==> Distinct(wishlists[u]) && ValidWishlistLines(wishlists[u])
    }

    constructor ()
      ensures wishlists == map[] && Valid()
    {
      wishlists := map[];
    }

    /** `wishlist.save()`: the lines are stored when every line validates;
        otherwise the validation error ends in the 500 catch and nothing is stored. */
    method Save(userId: UserId, lines: seq<Line>) returns (o: Outcome)
      modifies this
      ensures ValidWishlistLines(lines) ==> o == Ok && wishlists == old(wishlists)[userId := lines]
      ensures !ValidWishlistLines(lines) ==> o == ServerError && wishlists == old(wishlists)
    {
      if forall i | 0 <= i < |lines| :: lines[i].quantity >= 1 {
        wishlists := wishlists[userId := lines];
        o := Ok;
      } else {
        o := ServerError;
      }
    }

    /** The existing-wishlist branch of POST /api/wishlist: overwrite the
        product's quantity with a truthy `quantity`, or push a new line. */
    method MergeIntoExisting(userId: UserId, productId: ProductId, quantity: Option<int>) returns (o: Outcome)
      requires userId in wishlists
      modifies this
      ensures var merged := AddReplacing(old(wishlists)[userId], productId, quantity);
        if ValidWishlistLines(merged) then o == Ok && wishlists == old(wishlists)[userId := merged]
        else o == ServerError && wishlists == old(wishlists)
      ensures old(Valid()) ==> Valid()
    {
      var products := wishlists[userId];
      var productIndex := FindIndex(products, productId);
      if productIndex > -1 {
        var current := products[productIndex].quantity;
        var next := if quantity.Some? && quantity.value != 0 then quantity.value else current;
        products := products[productIndex := products[productIndex].(quantity := next)];
      } else {
        products := products + [WishlistLine(productId, quantity)];
      }
      o := Save(userId, products);
    }

    /** POST /api/wishlist as the source has it: the branch for a user without a
        wishlist evaluates an undefined identifier after building the new
        document, so the ReferenceError ends in the 500 catch and no wishlist
        is ever created. */
    method AddToWishlistAsWritten(catalog: set<ProductId>, userId: UserId, productId: ProductId, quantity: Option<int>)
      returns (o: Outcome)
      modifies this
      ensures productId !in catalog ==> o == NotFound("Product not found") && wishlists == old(wishlists)
      ensures productId in catalog && userId !in old(wishlists) ==> o == ServerError && wishlists == old(wishlists)
      ensures productId in catalog && userId in old(wishlists) ==>
        var merged := AddReplacing(old(wishlists)[userId], productId, quantity);
        if ValidWishlistLines(merged) then o == Ok && wishlists == old(wishlists)[userId := merged]
        else o == ServerError && wishlists == old(wishlists)
      ensures old(Valid()) ==> Valid()
    {
      if productId !in catalog {
        return NotFound("Product not found");
      }
      if userId !in wishlists {
        return ServerError;
      }
      o := MergeIntoExisting(userId, productId, quantity);
    }

    /** POST /api/wishlist as evidently intended: a user without a wishlist
        gets one holding exactly the new line. */
    method AddToWishlist(catalog: set<ProductId>, userId: UserId, productId: ProductId, quantity: Option<int>)
      returns (o: Outcome)
      modifies this
      ensures productId !in catalog ==> o == NotFound("Product not found") && wishlists == old(wishlists)
      ensures productId in catalog && userId !in old(wishlists) ==>
        var created := [WishlistLine(productId, quantity)];
        if ValidWishlistLines(created) then o == Ok && wishlists == old(wishlists)[userId := created]
        else o == ServerError && wishlists == old(wishlists)
      ensures productId in catalog && userId in old(wishlists) ==>
        var merged := AddReplacing(old(wishlists)[userId], productId, quantity);
        if ValidWishlistLines(merged) then o == Ok && wishlists == old(wishlists)[userId := merged]
        else o == ServerError && wishlists == old(wishlists)
      ensures old(Valid()) ==> Valid()
    {
      if productId !in catalog {
        return NotFound("Product not found");
      }
      if userId !in wishlists {
        o := Save(userId, [WishlistLine(productId, quantity)]);
      } else {
        o := MergeIntoExisting(userId, productId, quantity);
      }
    }

    /** PUT /api/wishlist. */
    method UpdateWishlistItem(userId: UserId, productId: ProductId, quantity: int) returns (o: Outcome)
      modifies this
      ensures userId !in old(wishlists) ==> o == NotFound("Wishlist not found") && wishlists == old(wishlists)
      ensures userId in old(wishlists) && !Has(old(wishlists)[userId], productId) ==>
        o == NotFound("Product not found in wishlist") && wishlists == old(wishlists)
      ensures userId in old(wishlists) && Has(old(wishlists)[userId], productId) ==>
        var updated := SetQuantity(old(wishlists)[userId], productId, quantity);
        if ValidWishlistLines(updated) then o == Ok && wishlists == old(wishlists)[userId := updated]
        else o == ServerError && wishlists == old(wishlists)
      ensures old(Valid()) ==> Valid() && o != ServerError
    {
      if userId !in wishlists {
        return NotFound("Wishlist not found");
      }
      var products := wishlists[userId];
      var productIndex := FindIndex(products, productId);
      if productIndex == -1 {
        return NotFound("Product not found in wishlist");
      }
      if quantity <= 0 {
        products := products[..productIndex] + products[productIndex + 1..];
      } else {
        products := products[productIndex := products[productIndex].(quantity := quantity)];
      }
      o := Save(userId, products);
    }

    /** DELETE /api/wishlist/product/:productId. */
    method RemoveFromWishlist(userId: UserId, productId: ProductId) returns (o: Outcome)
      modifies this
      ensures userId !in old(wishlists) ==> o == NotFound("Wishlist not found") && wishlists == old(wishlists)
      ensures userId in old(wishlists) && !Has(old(wishlists)[userId], productId) ==>
        o == NotFound("Product not found in wishlist") && wishlists == old(wishlists)
      ensures userId in old(wishlists) && Has(old(wishlists)[userId], productId) && old(Valid()) ==>
        o == Ok && wishlists == old(wishlists)[userId := RemoveLine(old(wishlists)[userId], productId)]
      ensures old(Valid()) ==> Valid()
    {
      if userId !in wishlists {
        return NotFound("Wishlist not found");
      }
      var products := wishlists[userId];
      var productIndex := FindIndex(products, productId);
      if productIndex == -1 {
        return NotFound("Product not found in wishlist");
      }
      products := products[..productIndex] + products[productIndex + 1..];
      o := Save(userId, products);
    }

    /** DELETE /api/wishlist: fails only when the user has no wishlist. */
    method ClearWishlist(userId: UserId) returns (o: Outcome)
      modifies this
      ensures userId !in old(wishlists) ==> o == NotFound("Wishlist not found") && wishlists == old(wishlists)
      ensures userId in old(wishlists) ==> o == Ok && wishlists == old(wishlists)[userId := []]
      ensures old(Valid()) ==> Valid()
    {
      if userId !in wishlists {
        return NotFound("Wishlist not found");
      }
      o := Save(userId, []);
    }
  }

  /** As written, a first add to an empty store answers 500 and saves nothing. */
  method FirstAddAsWritten(productId: ProductId, userId: UserId, quantity: Option<int>)
    returns (o: Outcome, saved: map<UserId, seq<Line>>)
    ensures o == ServerError && saved == map[]
  {
    var store := new WishlistStore();
    o := store.AddToWishlistAsWritten({productId}, userId, productId, quantity);
    saved := store.wishlists;
  }

  /** As intended, a first add with a missing or positive quantity creates the
      wishlist with exactly that one line. */
  method FirstAdd(productId: ProductId, userId: UserId, quantity: Option<int>)
    returns (o: Outcome, saved: map<UserId, seq<Line>>)
    requires quantity.None? || quantity.value >= 1
    ensures o == Ok && saved == map[userId := [WishlistLine(productId, quantity)]]
  {
    var store := new WishlistStore();
    o := store.AddToWishlist({productId}, userId, productId, quantity);
    saved := store.wishlists;
  }

  /** A truthy negative quantity on a repeat add fails at save: the stored
      quantity stays as it was. */
  method NegativeRepeatAdd(productId: ProductId, userId: UserId, q: int)
    returns (o: Outcome, saved: map<UserId, seq<Line>>)
    requires q < 0
    ensures o == ServerError && saved == map[userId := [Line(productId, DefaultQuantity)]]
  {
    var store := new WishlistStore();
    var first := store.AddToWishlist({productId}, userId, productId, None);
    o := store.AddToWishlist({productId}, userId, productId, Some(q));
    saved := store.wishlists;
  }
}
