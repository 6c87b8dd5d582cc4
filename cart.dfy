/** The cart handlers of services/cart/controllers/cart.controller.js.  Each
    user has at most one cart; a handler loads it, edits its `products` list
    in place and saves it.  The cart schema bounds nothing, so a save always
    succeeds. */
module Carts {
  import opened Common
  import opened Models
  import opened LineItems

  class CartStore {
    /** The `products` list of every user's cart, keyed by the owner. */
    var carts: map<UserId, seq<Line>>

    /** No cart holds two lines of one product. */
    ghost predicate Valid()
      reads this
    {
      forall u :: u in carts ==> Distinct(carts[u])
    }

    constructor ()
      ensures carts == map[] && Valid()
    {
      carts := map[];
    }

    /** POST /api/cart.  `catalog` is the set of products `Product.findById` finds. */
    method AddToCart(catalog: set<ProductId>, userId: UserId, productId: ProductId, quantity: int)
      returns (o: Outcome)
      modifies this
      ensures productId !in catalog ==> o == NotFound("Product not found") && carts == old(carts)
      ensures productId in catalog && userId !in old(carts) ==>
        o == Ok && carts == old(carts)[userId := [Line(productId, quantity)]]
      ensures productId in catalog && userId in old(carts) ==>
        o == Ok && carts == old(carts)[userId := AddSumming(old(carts)[userId], productId, quantity)]
      ensures old(Valid()) ==> Valid()
    {
      if productId !in catalog {
        return NotFound("Product not found");
      }
      if userId !in carts {
        carts := carts[userId := [Line(productId, quantity)]];
      } else {
        var products := carts[userId];
        var productIndex := FindIndex(products, productId);
        if productIndex > -1 {
          products := products[productIndex := products[productIndex].(quantity := products[productIndex].quantity + quantity)];
        } else {
          products := products + [Line(productId, quantity)];
        }
        carts := carts[userId := products];
      }
      o := Ok;
    }

    /** PUT /api/cart. */
    method UpdateCartItem(userId: UserId, productId: ProductId, quantity: int) returns (o: Outcome)
      modifies this
      ensures userId !in old(carts) ==> o == NotFound("Cart not found") && carts == old(carts)
      ensures userId in old(carts) && !Has(old(carts)[userId], productId) ==>
        o == NotFound("Product not found in cart") && carts == old(carts)
      ensures userId in old(carts) && Has(old(carts)[userId], productId) ==>
        o == Ok && carts == old(carts)[userId := SetQuantity(old(carts)[userId], productId, quantity)]
      ensures old(Valid()) ==> Valid()
    {
      if userId !in carts {
        return NotFound("Cart not found");
      }
      var products := carts[userId];
      var productIndex := FindIndex(products, productId);
      if productIndex == -1 {
        return NotFound("Product not found in cart");
      }
      if quantity <= 0 {
        products := products[..productIndex] + products[productIndex + 1..];
      } else {
        products := products[productIndex := products[productIndex].(quantity := quantity)];
      }
      carts := carts[userId := products];
      o := Ok;
    }

    /** DELETE /api/cart/product/:productId. */
    method RemoveFromCart(userId: UserId, productId: ProductId) returns (o: Outcome)
      modifies this
      ensures userId !in old(carts) ==> o == NotFound("Cart not found") && carts == old(carts)
      ensures userId in old(carts) && !Has(old(carts)[userId], productId) ==>
        o == NotFound("Product not found in cart") && carts == old(carts)
      ensures userId in old(carts) && Has(old(carts)[userId], productId) ==>
        o == Ok && carts == old(carts)[userId := RemoveLine(old(carts)[userId], productId)]
      ensures old(Valid()) ==> Valid()
    {
      if userId !in carts {
        return NotFound("Cart not found");
      }
      var products := carts[userId];
      var productIndex := FindIndex(products, productId);
      if productIndex == -1 {
        return NotFound("Product not found in cart");
      }
      products := products[..productIndex] + products[productIndex + 1..];
      carts := carts[userId := products];
      o := Ok;
    }

    /** DELETE /api/cart: fails only when the user has no cart. */
    method ClearCart(userId: UserId) returns (o: Outcome)
      modifies this
      ensures userId !in old(carts) ==> o == NotFound("Cart not found") && carts == old(carts)
      ensures userId in old(carts) ==> o == Ok && carts == old(carts)[userId := []]
      ensures old(Valid()) ==> Valid()
    {
      if userId !in carts {
        return NotFound("Cart not found");
      }
      carts := carts[userId := []];
      o := Ok;
    }
  }

  /** Two removals of the same product in a row: the first succeeds, the
      second answers 404, so removal is not idempotent. */
  method RemoveTwice(userId: UserId, productId: ProductId, quantity: int) returns (first: Outcome, second: Outcome)
    ensures first == Ok && second == NotFound("Product not found in cart")
  {
    var store := new CartStore();
    var added := store.AddToCart({productId}, userId, productId, quantity);
    assert [Line(productId, quantity)][0].productId == productId;
    first := store.RemoveFromCart(userId, productId);
    second := store.RemoveFromCart(userId, productId);
  }

  /** Clearing twice: both succeed and leave the same empty cart. */
  method ClearTwice(userId: UserId, productId: ProductId, quantity: int)
    returns (first: Outcome, second: Outcome, lines: seq<Line>)
    ensures first == Ok && second == Ok && lines == []
  {
    var store := new CartStore();
    var added := store.AddToCart({productId}, userId, productId, quantity);
    first := store.ClearCart(userId);
    second := store.ClearCart(userId);
    lines := store.carts[userId];
  }
}
