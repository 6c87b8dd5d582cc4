/** The line-item list shared by carts and wishlists: an ordered list of
    `(productId, quantity)` lines, looked up with `findIndex` (first match)
    and edited by overwrite, `push` and `splice`. */
module LineItems {
  import opened Common
  import opened Models

  predicate Has(lines: seq<Line>, productId: ProductId)
  {
    exists i :: 0 <= i < |lines| && lines[i].productId == productId
  }

  /** No two lines carry the same product. */
  predicate Distinct(lines: seq<Line>)
  {
    forall i, j :: 0 <= i < j < |lines| ==> lines[i].productId != lines[j].productId
  }

  /** `lines.findIndex(p => p.productId === productId)`: the first line of the
      product, or -1 when there is none. */
  function IndexOf(lines: seq<Line>, productId: ProductId): (k: int)
    ensures -1 <= k < |lines|
    ensures k >= 0 ==> lines[k].productId == productId
    ensures k >= 0 ==> forall j :: 0 <= j < k ==> lines[j].productId != productId
    ensures k == -1 <==> !Has(lines, productId)
  {
    if |lines| == 0 then -1
    else if lines[0].productId == productId then 0
    else
      var k := IndexOf(lines[1..], productId);
      assert forall j :: 0 < j < |lines| ==> lines[j] == lines[1..][j - 1];
      if k == -1 then -1 else k + 1
  }

  /** The scan `findIndex` performs. */
  method FindIndex(lines: seq<Line>, productId: ProductId) returns (k: int)
    ensures k == IndexOf(lines, productId)
  {
    k := 0;
    while k < |lines| && lines[k].productId != productId
      invariant 0 <= k <= |lines|
      invariant forall j :: 0 <= j < k ==> lines[j].productId != productId
    {
      k := k + 1;
    }
    if k == |lines| {
      k := -1;
    }
  }

  /** The quantity of the product's first line, 0 when it has none. */
  function QuantityOf(lines: seq<Line>, productId: ProductId): int
  {
    var k := IndexOf(lines, productId);
    if k >= 0 then lines[k].quantity else 0
  }

  /** Two lists whose lines match the product at the same positions find the
      same first line for it. */
  lemma {:induction false} SameIndexOf(a: seq<Line>, b: seq<Line>, productId: ProductId)
    requires |a| == |b|
    requires forall j :: 0 <= j < |a| ==> (a[j].productId == productId <==> b[j].productId == productId)
    ensures IndexOf(a, productId) == IndexOf(b, productId)
  {
    if |a| > 0 && a[0].productId != productId {
      SameIndexOf(a[1..], b[1..], productId);
    }
  }

  /** Overwriting one line with a line of the same product leaves every
      other product's first line where it was. */
  lemma IndexOfAfterOverwrite(lines: seq<Line>, k: int, l: Line, p: ProductId)
    requires 0 <= k < |lines| && lines[k].productId == l.productId && p != l.productId
    ensures IndexOf(lines[k := l], p) == IndexOf(lines, p)
  {
    SameIndexOf(lines[k := l], lines, p);
  }

  /** Appending a line of another product leaves a product's first line where it was. */
  lemma {:induction false} IndexOfAfterAppend(lines: seq<Line>, l: Line, p: ProductId)
    requires p != l.productId
    ensures IndexOf(lines + [l], p) == IndexOf(lines, p)
  {
    if |lines| > 0 {
      assert (lines + [l])[1..] == lines[1..] + [l];
      IndexOfAfterAppend(lines[1..], l, p);
    }
  }

  /** Appending a line of a new product keeps a list without duplicates. */
  lemma DistinctAfterAppend(lines: seq<Line>, l: Line)
    requires Distinct(lines) && !Has(lines, l.productId)
    ensures Distinct(lines + [l])
  {
    var r := lines + [l];
    forall i, j | 0 <= i < j < |r| ensures r[i].productId != r[j].productId {
      if j == |lines| {
        assert r[i] == lines[i];
      } else {
        assert r[i] == lines[i] && r[j] == lines[j];
      }
    }
  }

  /** The cart's add (cart.controller.js): the product's line gets the new
      quantity added to it, or, when the product has no line, a new line is
      pushed at the end. */
  function AddSumming(lines: seq<Line>, productId: ProductId, quantity: int): (r: seq<Line>)
    ensures Has(r, productId)
    ensures QuantityOf(r, productId) == QuantityOf(lines, productId) + quantity
    ensures forall p :: p != productId ==> QuantityOf(r, p) == QuantityOf(lines, p)
    ensures Has(lines, productId) ==> |r| == |lines|
    ensures !Has(lines, productId) ==> r == lines + [Line(productId, quantity)]
    ensures |r| >= |lines|
    ensures forall j :: 0 <= j < |lines| && lines[j].productId != productId ==> r[j] == lines[j]
    ensures Distinct(lines) ==> Distinct(r)
  {
    var k := IndexOf(lines, productId);
    if k > -1 then
      var l := Line(productId, lines[k].quantity + quantity);
      var r := lines[k := l];
      assert r[k] == l;
      SameIndexOf(r, lines, productId);
      forall p | p != productId ensures QuantityOf(r, p) == QuantityOf(lines, p) {
        IndexOfAfterOverwrite(lines, k, l, p);
      }
      r
    else
      var l := Line(productId, quantity);
      var r := lines + [l];
      assert r[|lines|] == l;
      forall p | p != productId ensures QuantityOf(r, p) == QuantityOf(lines, p) {
        IndexOfAfterAppend(lines, l, p);
        if IndexOf(lines, p) >= 0 { assert r[IndexOf(lines, p)] == lines[IndexOf(lines, p)]; }
      }
      if Distinct(lines) then DistinctAfterAppend(lines, l); r else r
  }

  /** The wishlist's add (wishlist.controller.js): the product's line gets the
      new quantity when it is truthy and keeps its own otherwise; when the
      product has no line, a new line is pushed at the end, with the schema
      default filling in a missing quantity. */
  function AddReplacing(lines: seq<Line>, productId: ProductId, quantity: Option<int>): (r: seq<Line>)
    ensures Has(r, productId)
    ensures Has(lines, productId) ==> |r| == |lines|
    ensures Has(lines, productId) ==>
      QuantityOf(r, productId) == (if quantity.Some? && quantity.value != 0 then quantity.value else QuantityOf(lines, productId))
    ensures !Has(lines, productId) ==> r == lines + [WishlistLine(productId, quantity)]
    ensures forall p :: p != productId ==> QuantityOf(r, p) == QuantityOf(lines, p)
    ensures |r| >= |lines|
    ensures forall j :: 0 <= j < |lines| && lines[j].productId != productId ==> r[j] == lines[j]
    ensures Distinct(lines) ==> Distinct(r)
  {
    var k := IndexOf(lines, productId);
    if k > -1 then
      var l := Line(productId, if quantity.Some? && quantity.value != 0 then quantity.value else lines[k].quantity);
      var r := lines[k := l];
      assert r[k] == l;
      SameIndexOf(r, lines, productId);
      forall p | p != productId ensures QuantityOf(r, p) == QuantityOf(lines, p) {
        IndexOfAfterOverwrite(lines, k, l, p);
      }
      r
    else
      var l := WishlistLine(productId, quantity);
      var r := lines + [l];
      assert r[|lines|] == l;
      forall p | p != productId ensures QuantityOf(r, p) == QuantityOf(lines, p) {
        IndexOfAfterAppend(lines, l, p);
        if IndexOf(lines, p) >= 0 { assert r[IndexOf(lines, p)] == lines[IndexOf(lines, p)]; }
      }
      if Distinct(lines) then DistinctAfterAppend(lines, l); r else r
  }

  /** `splice(index, 1)` at the product's first line: exactly that line is
      cut out and the others keep their order. */
  function RemoveLine(lines: seq<Line>, productId: ProductId): (r: seq<Line>)
    requires Has(lines, productId)
    ensures |r| == |lines| - 1
    ensures forall j :: 0 <= j < IndexOf(lines, productId) ==> r[j] == lines[j]
    ensures forall j :: IndexOf(lines, productId) <= j < |r| ==> r[j] == lines[j + 1]
    ensures Distinct(lines) ==> Distinct(r) && !Has(r, productId)
  {
    var k := IndexOf(lines, productId);
    var r := lines[..k] + lines[k + 1..];
    assert forall j :: k <= j < |r| ==> r[j] == lines[j + 1];
    r
  }

  /** The quantity update of both lists: a quantity of 0 or less removes the
      product's line, any other overwrites its quantity (no summing). */
  function SetQuantity(lines: seq<Line>, productId: ProductId, quantity: int): (r: seq<Line>)
    requires Has(lines, productId)
    ensures quantity <= 0 ==> r == RemoveLine(lines, productId)
    ensures quantity > 0 ==> |r| == |lines| && QuantityOf(r, productId) == quantity
    ensures quantity > 0 ==> forall j :: 0 <= j < |lines| && lines[j].productId != productId ==> r[j] == lines[j]
    ensures quantity > 0 ==> forall p :: p != productId ==> QuantityOf(r, p) == QuantityOf(lines, p)
    ensures Distinct(lines) ==> Distinct(r)
  {
    if quantity <= 0 then RemoveLine(lines, productId)
    else
      var k := IndexOf(lines, productId);
      var l := Line(productId, quantity);
      var r := lines[k := l];
      assert r[k] == l;
      SameIndexOf(r, lines, productId);
      forall p | p != productId ensures QuantityOf(r, p) == QuantityOf(lines, p) {
        IndexOfAfterOverwrite(lines, k, l, p);
      }
      r
  }

  /** A product missing from the head line is found in the tail, with the same quantity. */
  lemma QuantityOfTail(lines: seq<Line>, p: ProductId)
    requires |lines| > 0 && lines[0].productId != p
    ensures QuantityOf(lines, p) == QuantityOf(lines[1..], p)
  {
  }

  /** Cutting out a line of one product changes no other product's quantity. */
  lemma {:induction false} QuantityAfterRemove(lines: seq<Line>, productId: ProductId, p: ProductId)
    requires Has(lines, productId) && p != productId
    ensures QuantityOf(RemoveLine(lines, productId), p) == QuantityOf(lines, p)
  {
    var r := RemoveLine(lines, productId);
    if lines[0].productId == productId {
      assert r == lines[1..];
      QuantityOfTail(lines, p);
    } else {
      var t := RemoveLine(lines[1..], productId);
      assert r == [lines[0]] + t;
      if lines[0].productId != p {
        QuantityAfterRemove(lines[1..], productId, p);
        QuantityOfTail(lines, p);
        QuantityOfTail(r, p);
        assert r[1..] == t;
      }
    }
  }

  /** Removing a product from a list without duplicates leaves no line for it
      and every other product's quantity as it was; a second removal of the
      same product therefore finds nothing. */
  lemma RemoveLineIsExact(lines: seq<Line>, productId: ProductId)
    requires Distinct(lines) && Has(lines, productId)
    ensures !Has(RemoveLine(lines, productId), productId)
    ensures forall p :: p != productId ==> QuantityOf(RemoveLine(lines, productId), p) == QuantityOf(lines, p)
  {
    forall p | p != productId ensures QuantityOf(RemoveLine(lines, productId), p) == QuantityOf(lines, p) {
      QuantityAfterRemove(lines, productId, p);
    }
  }

  /** Adding the same product to a cart twice, with q1 and then q2, leaves
      exactly one line for it, holding q1 + q2. */
  lemma {:induction false} CartAddTwiceSums(lines: seq<Line>, productId: ProductId, q1: int, q2: int)
    requires Distinct(lines) && !Has(lines, productId)
    ensures var r := AddSumming(AddSumming(lines, productId, q1), productId, q2);
      Distinct(r) && Has(r, productId) && QuantityOf(r, productId) == q1 + q2
      && |r| == |lines| + 1
  {
  }

  /** Adding the same product to a wishlist twice, the second time with a
      truthy quantity q2, leaves exactly one line holding q2: no summing. */
  lemma {:induction false} WishlistAddTwiceOverwrites(lines: seq<Line>, productId: ProductId, q1: Option<int>, q2: int)
    requires Distinct(lines) && !Has(lines, productId) && q2 != 0
    ensures var r := AddReplacing(AddReplacing(lines, productId, q1), productId, Some(q2));
      Distinct(r) && Has(r, productId) && QuantityOf(r, productId) == q2
      && |r| == |lines| + 1
  {
  }
}
