/**
 * javascript/cartPage.js: quantity updates, removal, the order summary and the cart title.
 */
module CartPage {
  import opened Wrappers
  import opened JsBuiltins
  import opened Data
  import opened Utils
  import ProductCardHandlers

  // ---------------------------------------------------------------- quantity update

  /** What `updateCartItemQuantity(id, q)` does to the stored cart. */
  function UpdateQuantity(cart: seq<CartLine>, catalog: seq<Product>, id: string, q: int): Change<seq<CartLine>>
  {
    var i := LineIndex(cart, id);
    if i < 0 then Unchanged([])
    else match Find(catalog, id)
      case None => Unchanged([])
      case Some(p) =>
        if q <= 0 then Saved(SpliceOut(cart, i), [RemovedFromCart])
        else if q > p.stock then Saved(cart[i := cart[i].(quantity := p.stock)], [StockLimit(p.stock)])
        else Saved(cart[i := cart[i].(quantity := q)], [QuantityUpdated])
  }

  /** The quantity a request asks for once the handler has applied its rules: removal for q <= 0,
      the stock for a request past it, the request otherwise. */
  function Granted(q: int, stock: int): int
  {
    if q <= 0 then 0 else if q > stock then stock else q
  }

  /** The update touches the cart exactly when there is a line for the id and the product is in the catalog. */
  lemma UpdateQuantityNoOp(cart: seq<CartLine>, catalog: seq<Product>, id: string, q: int)
    ensures UpdateQuantity(cart, catalog, id, q).Unchanged? <==> !HasId(cart, LineId, id) || Find(catalog, id).None?
    ensures UpdateQuantity(cart, catalog, id, q).Unchanged? ==> UpdateQuantity(cart, catalog, id, q).notices == []
  {
  }

  /** A request of zero or less removes exactly the first line of the id and keeps the rest in order; on a cart
      with one line per id that is the same as `removeCartItem`. */
  lemma UpdateQuantityRemovesLine(cart: seq<CartLine>, catalog: seq<Product>, id: string, q: int)
    requires HasId(cart, LineId, id) && Find(catalog, id).Some? && q <= 0
    ensures var after := UpdateQuantity(cart, catalog, id, q).value;
      var i := LineIndex(cart, id);
      |after| == |cart| - 1 && after[..i] == cart[..i] && after[i..] == cart[i + 1..]
    ensures OneLinePerId(cart) ==> UpdateQuantity(cart, catalog, id, q).value == RemoveLines(cart, id)
  {
    var i := LineIndex(cart, id) as nat;
    assert UpdateQuantity(cart, catalog, id, q).value == SpliceOut(cart, i);
    SplitAround(cart, i);
    if OneLinePerId(cart) {
      SpliceFirstIsWithout(cart, LineId, id);
    }
  }

  /** After an update the id holds the granted quantity and every other id keeps its quantity. */
  lemma {:induction false} UpdateQuantityEffect(cart: seq<CartLine>, catalog: seq<Product>, id: string, q: int, other: string)
    requires OneLinePerId(cart)
    requires HasId(cart, LineId, id) && Find(catalog, id).Some?
    ensures var after := UpdateQuantity(cart, catalog, id, q).value;
      QuantityOf(after, other) == if other == id then Granted(q, Find(catalog, id).value.stock) else QuantityOf(cart, other)
  {
    var p := Find(catalog, id).value;
    var i := LineIndex(cart, id) as nat;
    if q <= 0 {
      if other == id {
        SpliceFirstIsWithout(cart, LineId, id);
        assert !HasId(RemoveLines(cart, id), LineId, id);
      } else {
        FindIndexAfterSplice(cart, LineId, i, other);
      }
    } else {
      QuantityOfAfterSet(cart, i, Granted(q, p.stock), other);
    }
  }

  /** The update keeps one line per id. */
  lemma UpdateQuantityKeepsOneLinePerId(cart: seq<CartLine>, catalog: seq<Product>, id: string, q: int)
    requires OneLinePerId(cart)
    ensures OneLinePerId(UpdateQuantity(cart, catalog, id, q).After(cart))
  {
    var c := UpdateQuantity(cart, catalog, id, q);
    if c.Saved? {
      var i := LineIndex(cart, id) as nat;
      if q <= 0 {
        SpliceFirstIsWithout(cart, LineId, id);
        WithoutIdKeepsUnique(cart, LineId, id);
      } else {
        ReplaceSameIdKeepsUnique(cart, LineId, i, c.value[i]);
      }
    }
  }

  /** The update never takes a line past its product's stock. */
  lemma UpdateQuantityKeepsWithinStock(cart: seq<CartLine>, catalog: seq<Product>, id: string, q: int)
    requires WithinStock(cart, catalog)
    ensures WithinStock(UpdateQuantity(cart, catalog, id, q).After(cart), catalog)
  {
    var c := UpdateQuantity(cart, catalog, id, q);
    if c.Saved? {
      var i := LineIndex(cart, id) as nat;
      var t := c.value;
      forall k | 0 <= k < |t| && Find(catalog, t[k].id).Some?
        ensures t[k].quantity <= Find(catalog, t[k].id).value.stock
      {
        if q <= 0 {
          if k < i { assert t[k] == cart[k]; } else { assert t[k] == cart[k + 1]; }
        } else if k != i {
          assert t[k] == cart[k];
        }
      }
    }
  }

  /** Every line holds at least one unit. */
  ghost predicate PositiveQuantities(cart: seq<CartLine>)
  {
    forall k :: 0 <= k < |cart| ==> cart[k].quantity >= 1
  }

  /** While the product is in stock, an update never leaves a line with zero units. */
  lemma UpdateQuantityKeepsPositive(cart: seq<CartLine>, catalog: seq<Product>, id: string, q: int)
    requires PositiveQuantities(cart)
    requires Find(catalog, id).Some? ==> Find(catalog, id).value.stock > 0
    ensures PositiveQuantities(UpdateQuantity(cart, catalog, id, q).After(cart))
  {
    var c := UpdateQuantity(cart, catalog, id, q);
    if c.Saved? && q <= 0 {
      var i := LineIndex(cart, id) as nat;
      forall k | 0 <= k < |c.value| ensures c.value[k].quantity >= 1 {
        if k < i { assert c.value[k] == cart[k]; } else { assert c.value[k] == cart[k + 1]; }
      }
    }
  }

  /** A product whose stock has dropped to zero turns any positive request into a line with zero units. */
  lemma UpdateQuantityZeroStock()
    ensures var p := Product("x-1", "X", 500, "audio", "x.png", 0, 0);
      var cart := [CartLine("x-1", 2, Whole(p))];
      UpdateQuantity(cart, [p], "x-1", 1).value == [CartLine("x-1", 0, Whole(p))]
  {
    var p := Product("x-1", "X", 500, "audio", "x.png", 0, 0);
    var cart := [CartLine("x-1", 2, Whole(p))];
    assert LineIndex(cart, "x-1") == 0;
  }

  /** `updateCartItemQuantity(productId, newQuantity)`. */
  method UpdateCartItemQuantity(store: Store, catalog: seq<Product>, id: string, q: int) returns (notices: seq<Notice>)
    modifies store
    ensures var c := UpdateQuantity(old(store.GetCart()), catalog, id, q);
      notices == c.notices &&
      (c.Unchanged? ==> store.cartSlot == old(store.cartSlot)) &&
      (c.Saved? ==> store.cartSlot == Some(c.value))
    ensures store.wishlistSlot == old(store.wishlistSlot) && store.usersSlot == old(store.usersSlot)
    ensures store.sessionSlot == old(store.sessionSlot)
  {
    var cart := store.GetCart();
    var i := LineIndex(cart, id);
    if i > -1 {
      var found := Find(catalog, id);
      if found.None? {
        return [];
      }
      var product := found.value;
      if q <= 0 {
        cart := SpliceOut(cart, i);
        notices := [RemovedFromCart];
      } else if q > product.stock {
        notices := [StockLimit(product.stock)];
        cart := cart[i := cart[i].(quantity := product.stock)];
      } else {
        cart := cart[i := cart[i].(quantity := q)];
        notices := [QuantityUpdated];
      }
      store.SetCart(cart);
    } else {
      notices := [];
    }
  }

  // ---------------------------------------------------------------- removal

  /** Removal drops every line of the id, keeps the other lines in order, and is idempotent. */
  lemma RemoveLinesMeaning(cart: seq<CartLine>, id: string)
    ensures !HasId(RemoveLines(cart, id), LineId, id)
    ensures IsSubsequence(RemoveLines(cart, id), cart)
    ensures forall l :: l in RemoveLines(cart, id) <==> l in cart && l.id != id
    ensures RemoveLines(RemoveLines(cart, id), id) == RemoveLines(cart, id)
    ensures !HasId(cart, LineId, id) ==> RemoveLines(cart, id) == cart
  {
    WithoutIdIsSubsequence(cart, LineId, id);
    WithoutIdIdempotent(cart, LineId, id);
    WithoutIdMembers(cart, LineId, id);
    if !HasId(cart, LineId, id) { WithoutAbsentId(cart, LineId, id); }
  }

  /** On a cart with one line per id, removal lowers the total quantity by exactly that id's quantity. */
  lemma RemoveLinesBadge(cart: seq<CartLine>, id: string)
    requires OneLinePerId(cart)
    ensures SumQuantities(RemoveLines(cart, id)) == SumQuantities(cart) - QuantityOf(cart, id)
  {
    if HasId(cart, LineId, id) {
      var i := LineIndex(cart, id) as nat;
      SpliceFirstIsWithout(cart, LineId, id);
      SumQuantitiesSplice(cart, i);
    } else {
      WithoutAbsentId(cart, LineId, id);
    }
  }

  /** Splicing out one line takes exactly its quantity off the sum. */
  lemma SumQuantitiesSplice(cart: seq<CartLine>, i: nat)
    requires i < |cart|
    ensures SumQuantities(SpliceOut(cart, i)) == SumQuantities(cart) - cart[i].quantity
  {
    var before, line, after := cart[..i], cart[i], cart[i + 1..];
    SplitAround(cart, i);
    SumQuantitiesAround(before, line, after);
  }

  lemma SumQuantitiesAround(before: seq<CartLine>, line: CartLine, after: seq<CartLine>)
    ensures SumQuantities((before + [line]) + after) == SumQuantities(before) + line.quantity + SumQuantities(after)
    ensures SumQuantities(before + after) == SumQuantities(before) + SumQuantities(after)
  {
    SumQuantitiesConcat(before, [line]);
    assert SumQuantities([line]) == line.quantity by { assert [line][..0] == []; }
    SumQuantitiesConcat(before + [line], after);
    SumQuantitiesConcat(before, after);
  }

  /** Removal keeps both cart invariants. */
  lemma RemoveLinesKeepsInvariants(cart: seq<CartLine>, catalog: seq<Product>, id: string)
    ensures OneLinePerId(cart) ==> OneLinePerId(RemoveLines(cart, id))
    ensures WithinStock(cart, catalog) ==> WithinStock(RemoveLines(cart, id), catalog)
  {
    if OneLinePerId(cart) { WithoutIdKeepsUnique(cart, LineId, id); }
    if WithinStock(cart, catalog) {
      var t := RemoveLines(cart, id);
      WithoutIdMembers(cart, LineId, id);
      forall k | 0 <= k < |t| && Find(catalog, t[k].id).Some?
        ensures t[k].quantity <= Find(catalog, t[k].id).value.stock
      {
        assert t[k] in cart;
      }
    }
  }

  /** `removeCartItem(productId)`: the filtered cart is always written back; the message needs the product. */
  method RemoveCartItem(store: Store, catalog: seq<Product>, id: string) returns (notices: seq<Notice>)
    modifies store
    ensures store.cartSlot == Some(RemoveLines(old(store.GetCart()), id))
    ensures notices == if Find(catalog, id).Some? then [RemovedFromCart] else []
    ensures store.wishlistSlot == old(store.wishlistSlot) && store.usersSlot == old(store.usersSlot)
    ensures store.sessionSlot == old(store.sessionSlot)
  {
    var cart := store.GetCart();
    var product := Find(catalog, id);
    cart := RemoveLines(cart, id);
    store.SetCart(cart);
    notices := [];
    if product.Some? {
      notices := [RemovedFromCart];
    }
  }

  // ---------------------------------------------------------------- summary

  /** What a line adds to the subtotal: its live product's price times its quantity, nothing for a stale line. */
  function LineAmount(line: CartLine, catalog: seq<Product>): int
  {
    match Find(catalog, line.id)
    case None => 0
    case Some(p) => p.price * line.quantity
  }

  /** Σ price × quantity over the lines whose product is in the catalog. */
  function Subtotal(cart: seq<CartLine>, catalog: seq<Product>): int
  {
    if |cart| == 0 then 0 else Subtotal(cart[..|cart| - 1], catalog) + LineAmount(cart[|cart| - 1], catalog)
  }

  /** The flat shipping fee and the tax rate applied to the subtotal. */
  const ShippingFee: int := 100
  const TaxPercent: int := 18

  datatype Summary = Summary(subtotal: int, shipping: int, tax: real, total: real)

  /** Shipping, tax and total for a subtotal. */
  function Charges(subtotal: int): (s: Summary)
    ensures s.subtotal == subtotal
    ensures s.shipping == (if subtotal > 0 then ShippingFee else 0)
    ensures s.tax == subtotal as real * 0.18
    ensures s.total == s.subtotal as real + s.shipping as real + s.tax
  {
    var shipping := if subtotal > 0 then ShippingFee else 0;
    var tax := (subtotal * TaxPercent) as real / 100.0;
    Summary(subtotal, shipping, tax, subtotal as real + shipping as real + tax)
  }

  /** The empty cart shows all zeros, the same as the summary of a zero subtotal. */
  lemma EmptyCartSummary(catalog: seq<Product>)
    ensures Charges(Subtotal([], catalog)) == Summary(0, 0, 0.0, 0.0)
  {
  }

  /** A positive subtotal pays the flat fee plus 18 percent: total = 1.18 × subtotal + 100. */
  lemma PositiveSubtotalTotal(subtotal: int)
    requires subtotal > 0
    ensures Charges(subtotal).total == subtotal as real * 1.18 + 100.0
  {
  }

  lemma {:induction false} SubtotalConcat(a: seq<CartLine>, b: seq<CartLine>, catalog: seq<Product>)
    ensures Subtotal(a + b, catalog) == Subtotal(a, catalog) + Subtotal(b, catalog)
    decreases |b|
  {
    if |b| == 0 {
      assert a + b == a;
    } else {
      var ab := a + b;
      assert ab[..|ab| - 1] == a + b[..|b| - 1];
      SubtotalConcat(a, b[..|b| - 1], catalog);
    }
  }

  /** Lines whose product is missing contribute nothing: dropping them leaves the subtotal as it is. */
  lemma {:induction false} SubtotalSkipsStale(cart: seq<CartLine>, catalog: seq<Product>, id: string)
    requires Find(catalog, id).None?
    ensures Subtotal(RemoveLines(cart, id), catalog) == Subtotal(cart, catalog)
  {
    if |cart| > 0 {
      var init := cart[..|cart| - 1];
      SubtotalSkipsStale(init, catalog, id);
      if cart[|cart| - 1].id != id {
        var r := RemoveLines(init, id);
        assert (r + [cart[|cart| - 1]])[..|r|] == r;
      }
    }
  }

  /** With non-negative quantities over a catalog of non-negative prices, the subtotal is non-negative. */
  lemma {:induction false} SubtotalNonNegative(cart: seq<CartLine>, catalog: seq<Product>)
    requires forall k :: 0 <= k < |cart| ==> cart[k].quantity >= 0
    requires forall k :: 0 <= k < |catalog| ==> catalog[k].price >= 0
    ensures Subtotal(cart, catalog) >= 0
  {
    if |cart| > 0 {
      SubtotalNonNegative(cart[..|cart| - 1], catalog);
      var last := cart[|cart| - 1];
      var f := Find(catalog, last.id);
      if f.Some? {
        var i :| 0 <= i < |catalog| && catalog[i] == f.value;
        assert f.value.price >= 0;
      }
    }
  }

  /** `calculateCartSummary()`: the `forEach` accumulation over the stored cart. */
  method CalculateCartSummary(store: Store, catalog: seq<Product>) returns (summary: Summary)
    ensures summary == Charges(Subtotal(store.GetCart(), catalog))
  {
    var cart := store.GetCart();
    var subtotal := 0;
    for k := 0 to |cart|
      invariant subtotal == Subtotal(cart[..k], catalog)
    {
      assert cart[..k + 1][..k] == cart[..k];
      var product := Find(catalog, cart[k].id);
      if product.Some? {
        subtotal := subtotal + product.value.price * cart[k].quantity;
      }
    }
    assert cart[..|cart|] == cart;
    var shipping := if subtotal > 0 then ShippingFee else 0;
    var tax := (subtotal * TaxPercent) as real / 100.0;
    summary := Summary(subtotal, shipping, tax, subtotal as real + shipping as real + tax);
  }

  // ---------------------------------------------------------------- the rendered cart

  /** The parts of `renderCart` that carry numbers: the title count, the summary and the checkout button. */
  datatype CartView = CartView(titleCount: int, summary: Summary, checkoutEnabled: bool)

  /** `renderCart()`: an empty cart shows "0 items", a zero summary and a disabled checkout; otherwise the title
      is the cart's total quantity and the summary is recomputed. */
  method RenderCart(store: Store, catalog: seq<Product>) returns (view: CartView)
    ensures view.titleCount == SumQuantities(store.GetCart())
    ensures view.summary == Charges(Subtotal(store.GetCart(), catalog))
    ensures view.checkoutEnabled <==> |store.GetCart()| > 0
  {
    var cart := store.GetCart();
    if |cart| == 0 {
      return CartView(0, Summary(0, 0, 0.0, 0.0), false);
    }
    var summary := CalculateCartSummary(store, catalog);
    view := CartView(SumQuantities(cart), summary, true);
  }

  // ---------------------------------------------------------------- a worked example

  /** One product at 100000 with stock 10: add it, ask for 15, and the summary is 1000000 / 100 / 180000 / 1180100. */
  lemma ClampedCartTotals()
    ensures var a := Product("A-1", "A", 100000, "laptops", "a.png", 0, 10);
      var added := ProductCardHandlers.CardAdd([], [a], "A-1");
      var updated := UpdateQuantity(added.value, [a], "A-1", 15);
      added == Saved([CartLine("A-1", 1, Whole(a))], [AddedToCart]) &&
      updated == Saved([CartLine("A-1", 10, Whole(a))], [StockLimit(10)]) &&
      Charges(Subtotal(updated.value, [a])) == Summary(1000000, 100, 180000.0, 1180100.0)
  {
    var a := Product("A-1", "A", 100000, "laptops", "a.png", 0, 10);
    assert FindIndexById([a], ProductId, "A-1") == 0;
    assert Find([a], "A-1") == Some(a);
    assert LineIndex([], "A-1") == -1;
    var one := [CartLine("A-1", 1, Whole(a))];
    var empty: seq<CartLine> := [];
    assert empty + [CartLine(a.id, 1, Whole(a))] == one;
    assert ProductCardHandlers.CardAdd(empty, [a], "A-1") == Saved(one, [AddedToCart]);
    assert LineIndex(one, "A-1") == 0;
    var ten := [CartLine("A-1", 10, Whole(a))];
    assert one[0 := one[0].(quantity := 10)] == ten;
    assert UpdateQuantity(one, [a], "A-1", 15) == Saved(ten, [StockLimit(10)]);
    assert ten[..0] == [];
    assert LineAmount(ten[0], [a]) == 1000000;
    assert Subtotal(ten, [a]) == 1000000;
  }
}
