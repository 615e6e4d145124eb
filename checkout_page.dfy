/**
 * javascript/checkoutPage.js: the item count and totals of the checkout summary.
 */
module CheckoutPage {
  import opened Wrappers
  import opened JsBuiltins
  import opened Data
  import opened Utils
  import opened CartPage

  /** What a line adds to the item count: its quantity when its product is in the catalog, nothing otherwise. */
  function FoundUnits(line: CartLine, catalog: seq<Product>): int
  {
    if Find(catalog, line.id).Some? then line.quantity else 0
  }

  /** Σ quantity over the lines whose product is in the catalog. */
  function FoundQuantity(cart: seq<CartLine>, catalog: seq<Product>): int
  {
    if |cart| == 0 then 0 else FoundQuantity(cart[..|cart| - 1], catalog) + FoundUnits(cart[|cart| - 1], catalog)
  }

  /** When every line's product is in the catalog, the checkout count is the cart badge. */
  lemma {:induction false} FoundQuantityAllFound(cart: seq<CartLine>, catalog: seq<Product>)
    requires forall k :: 0 <= k < |cart| ==> Find(catalog, cart[k].id).Some?
    ensures FoundQuantity(cart, catalog) == SumQuantities(cart)
  {
    if |cart| > 0 {
      FoundQuantityAllFound(cart[..|cart| - 1], catalog);
    }
  }

  /** Stale lines only ever lower the count below the badge (quantities being non-negative). */
  lemma {:induction false} FoundQuantityAtMostBadge(cart: seq<CartLine>, catalog: seq<Product>)
    requires forall k :: 0 <= k < |cart| ==> cart[k].quantity >= 0
    ensures 0 <= FoundQuantity(cart, catalog) <= SumQuantities(cart)
  {
    if |cart| > 0 {
      FoundQuantityAtMostBadge(cart[..|cart| - 1], catalog);
    }
  }

  /** Lines of a product missing from the catalog are skipped: dropping them changes no checkout figure. */
  lemma {:induction false} CheckoutSkipsStale(cart: seq<CartLine>, catalog: seq<Product>, id: string)
    requires Find(catalog, id).None?
    ensures FoundQuantity(RemoveLines(cart, id), catalog) == FoundQuantity(cart, catalog)
    ensures Subtotal(RemoveLines(cart, id), catalog) == Subtotal(cart, catalog)
  {
    SubtotalSkipsStale(cart, catalog, id);
    if |cart| > 0 {
      var init := cart[..|cart| - 1];
      CheckoutSkipsStale(init, catalog, id);
      if cart[|cart| - 1].id != id {
        var r := RemoveLines(init, id);
        assert (r + [cart[|cart| - 1]])[..|r|] == r;
      }
    }
  }

  /** The numbers of the checkout summary. */
  datatype CheckoutView = CheckoutView(itemCount: int, summary: Summary, submitEnabled: bool)

  /** `renderCheckoutSummary()`: an empty cart shows zeros and disables the submit button; otherwise one
      `forEach` pass sums the subtotal and the item count over the lines whose product is found. The cart is
      only read. The summary is the one `calculateCartSummary` shows for the same cart. */
  method RenderCheckoutSummary(store: Store, catalog: seq<Product>) returns (view: CheckoutView)
    ensures view.itemCount == FoundQuantity(store.GetCart(), catalog)
    ensures view.summary == Charges(Subtotal(store.GetCart(), catalog))
    ensures view.submitEnabled <==> |store.GetCart()| > 0
  {
    var cart := store.GetCart();
    if |cart| == 0 {
      return CheckoutView(0, Summary(0, 0, 0.0, 0.0), false);
    }
    var subtotal, totalItems := 0, 0;
    for k := 0 to |cart|
      invariant subtotal == Subtotal(cart[..k], catalog)
      invariant totalItems == FoundQuantity(cart[..k], catalog)
    {
      assert cart[..k + 1][..k] == cart[..k];
      var product := Find(catalog, cart[k].id);
      if product.Some? {
        subtotal := subtotal + product.value.price * cart[k].quantity;
        totalItems := totalItems + cart[k].quantity;
      }
    }
    assert cart[..|cart|] == cart;
    var shipping := if subtotal > 0 then ShippingFee else 0;
    var tax := (subtotal * TaxPercent) as real / 100.0;
    view := CheckoutView(totalItems, Summary(subtotal, shipping, tax, subtotal as real + shipping as real + tax), true);
  }
}
