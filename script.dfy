/**
 * javascript/script.js: the older single-file copy of the storefront handlers. Its add-to-cart has no stock
 * check, its wishlist toggle splices, its quantity update runs without the product, its cart title counts
 * lines, and its listing filter keeps the current page (its callers reset the page before they call it).
 */
module Script {
  import opened Wrappers
  import opened JsBuiltins
  import opened Data
  import opened Utils
  import opened ProductCardHandlers
  import opened ProductDetailPage
  import opened CartPage
  import opened ProductListingPage

  // ---------------------------------------------------------------- add to cart, unchecked

  /** The add-to-cart listener of `addProductCardEventListeners` in this copy. */
  function ScriptAdd(cart: seq<CartLine>, catalog: seq<Product>, id: string): Change<seq<CartLine>>
  {
    match Find(catalog, id)
    case None => Unchanged([])
    case Some(p) =>
      var i := LineIndex(cart, id);
      if i > -1 then Saved(cart[i := cart[i].(quantity := cart[i].quantity + 1)], [])
      else Saved(cart + [CartLine(p.id, 1, Picked(p.name, p.price, p.image, Some(p.stock)))], [])
  }

  /** An unknown id changes nothing; a known one always gains exactly one unit, whatever its stock, and no
      other id's quantity moves. */
  lemma {:induction false} ScriptAddMeaning(cart: seq<CartLine>, catalog: seq<Product>, id: string, other: string)
    ensures ScriptAdd(cart, catalog, id).Unchanged? <==> Find(catalog, id).None?
    ensures ScriptAdd(cart, catalog, id).Saved? ==>
      QuantityOf(ScriptAdd(cart, catalog, id).value, other) == QuantityOf(cart, other) + (if other == id then 1 else 0)
    ensures ScriptAdd(cart, catalog, id).Saved? && !HasId(cart, LineId, id) ==>
      |ScriptAdd(cart, catalog, id).value| == |cart| + 1 && ScriptAdd(cart, catalog, id).value[..|cart|] == cart
  {
    var c := ScriptAdd(cart, catalog, id);
    if c.Saved? {
      var p := Find(catalog, id).value;
      var i := LineIndex(cart, id);
      if i > -1 {
        QuantityOfAfterSet(cart, i, cart[i].quantity + 1, other);
      } else {
        QuantityOfAfterAppend(cart, CartLine(p.id, 1, Picked(p.name, p.price, p.image, Some(p.stock))), other);
      }
    }
  }

  /** Wherever the stock-checked add accepts, this copy leaves the same (id, quantity) pairs. */
  lemma ScriptAddAgreesWhenAccepted(cart: seq<CartLine>, catalog: seq<Product>, id: string)
    requires CardAdd(cart, catalog, id).Saved?
    ensures ScriptAdd(cart, catalog, id).Saved?
    ensures Pairs(ScriptAdd(cart, catalog, id).value) == Pairs(CardAdd(cart, catalog, id).value)
  {
    var a, b := Pairs(ScriptAdd(cart, catalog, id).value), Pairs(CardAdd(cart, catalog, id).value);
    assert |a| == |b|;
    forall k | 0 <= k < |a| ensures a[k] == b[k] {
    }
  }

  /** Without the stock check a full line grows past its stock, where the product cards refuse. */
  lemma ScriptAddExceedsStock()
    ensures var p := Product("x-1", "X", 500, "audio", "x.png", 0, 1);
      var cart := [CartLine("x-1", 1, Whole(p))];
      ScriptAdd(cart, [p], "x-1").Saved? && QuantityOf(ScriptAdd(cart, [p], "x-1").value, "x-1") == 2 &&
      !WithinStock(ScriptAdd(cart, [p], "x-1").value, [p]) && CardAdd(cart, [p], "x-1").Unchanged?
  {
    var p := Product("x-1", "X", 500, "audio", "x.png", 0, 1);
    var cart := [CartLine("x-1", 1, Whole(p))];
    assert FindIndexById([p], ProductId, "x-1") == 0;
    assert LineIndex(cart, "x-1") == 0;
    var after := ScriptAdd(cart, [p], "x-1").value;
    assert after == [CartLine("x-1", 2, Whole(p))];
    assert LineIndex(after, "x-1") == 0;
  }

  method ScriptAddToCartClick(store: Store, catalog: seq<Product>, id: string)
    modifies store
    ensures var c := ScriptAdd(old(store.GetCart()), catalog, id);
      (c.Unchanged? ==> store.cartSlot == old(store.cartSlot)) && (c.Saved? ==> store.cartSlot == Some(c.value))
    ensures store.wishlistSlot == old(store.wishlistSlot) && store.usersSlot == old(store.usersSlot)
    ensures store.sessionSlot == old(store.sessionSlot)
  {
    var found := Find(catalog, id);
    if found.Some? {
      var product := found.value;
      var cart := store.GetCart();
      var i := LineIndex(cart, id);
      if i > -1 {
        cart := cart[i := cart[i].(quantity := cart[i].quantity + 1)];
      } else {
        cart := cart + [CartLine(product.id, 1, Picked(product.name, product.price, product.image, Some(product.stock)))];
      }
      store.SetCart(cart);
    }
  }

  /** The add button of this copy's detail page: the same unchecked add, on the product the page shows. */
  function ScriptDetailAdd(cart: seq<CartLine>, p: Product): seq<CartLine>
  {
    var i := LineIndex(cart, p.id);
    if i > -1 then cart[i := cart[i].(quantity := cart[i].quantity + 1)]
    else cart + [CartLine(p.id, 1, Picked(p.name, p.price, p.image, Some(p.stock)))]
  }

  /** On the product the detail page shows, its add button does what the card button does: one more unit of
      that product, whatever its stock, and no other id's quantity moves. */
  lemma ScriptDetailAddIsScriptAdd(cart: seq<CartLine>, catalog: seq<Product>, p: Product, other: string)
    requires Find(catalog, p.id) == Some(p)
    ensures ScriptAdd(cart, catalog, p.id) == Saved(ScriptDetailAdd(cart, p), [])
    ensures QuantityOf(ScriptDetailAdd(cart, p), other) == QuantityOf(cart, other) + (if other == p.id then 1 else 0)
  {
    ScriptAddMeaning(cart, catalog, p.id, other);
  }

  /** The detail page's click listener: it always writes the cart, and nothing else. */
  method ScriptDetailAddClick(store: Store, p: Product)
    modifies store
    ensures store.cartSlot == Some(ScriptDetailAdd(old(store.GetCart()), p))
    ensures store.wishlistSlot == old(store.wishlistSlot) && store.usersSlot == old(store.usersSlot)
    ensures store.sessionSlot == old(store.sessionSlot)
  {
    var cart := store.GetCart();
    var i := LineIndex(cart, p.id);
    if i > -1 {
      cart := cart[i := cart[i].(quantity := cart[i].quantity + 1)];
    } else {
      cart := cart + [CartLine(p.id, 1, Picked(p.name, p.price, p.image, Some(p.stock)))];
    }
    store.SetCart(cart);
  }

  // ---------------------------------------------------------------- wishlist toggle

  /** The wishlist listener of `addProductCardEventListeners` in this copy. */
  function ScriptToggle(wishlist: seq<WishItem>, catalog: seq<Product>, id: string): Change<seq<WishItem>>
  {
    match Find(catalog, id)
    case None => Unchanged([])
    case Some(p) =>
      var i := FindIndexById(wishlist, ItemId, id);
      if i > -1 then Saved(SpliceOut(wishlist, i), [RemovedFromWishlist])
      else Saved(wishlist + [WishItem(p.id, Whole(p))], [AddedToWishlist])
  }

  /** For a known product this copy is the detail page's toggle, so adding and removing restores the list. */
  lemma ScriptToggleIsDetailToggle(wishlist: seq<WishItem>, catalog: seq<Product>, id: string)
    ensures ScriptToggle(wishlist, catalog, id).Unchanged? <==> Find(catalog, id).None?
    ensures Find(catalog, id).Some? ==> ScriptToggle(wishlist, catalog, id) == DetailToggle(wishlist, Find(catalog, id).value)
    ensures Find(catalog, id).Some? && !InWishlist(wishlist, id) ==>
      ScriptToggle(ScriptToggle(wishlist, catalog, id).value, catalog, id).value == wishlist
  {
    if Find(catalog, id).Some? {
      var p := Find(catalog, id).value;
      if !InWishlist(wishlist, id) {
        DetailToggleTwice(wishlist, p);
      }
    }
  }

  method ScriptToggleWishlistClick(store: Store, catalog: seq<Product>, id: string) returns (notices: seq<Notice>)
    modifies store
    ensures var c := ScriptToggle(old(store.GetWishlist()), catalog, id);
      notices == c.notices &&
      (c.Unchanged? ==> store.wishlistSlot == old(store.wishlistSlot)) && (c.Saved? ==> store.wishlistSlot == Some(c.value))
    ensures store.cartSlot == old(store.cartSlot) && store.usersSlot == old(store.usersSlot)
    ensures store.sessionSlot == old(store.sessionSlot)
  {
    var found := Find(catalog, id);
    if found.None? {
      return [];
    }
    var wishlist := store.GetWishlist();
    var i := FindIndexById(wishlist, ItemId, id);
    if i > -1 {
      wishlist := SpliceOut(wishlist, i);
      notices := [RemovedFromWishlist];
    } else {
      wishlist := wishlist + [WishItem(found.value.id, Whole(found.value))];
      notices := [AddedToWishlist];
    }
    store.SetWishlist(wishlist);
  }

  // ---------------------------------------------------------------- quantity update and removal

  /** `updateCartItemQuantity` in this copy: the product is only consulted for the stock clamp. */
  function ScriptUpdate(cart: seq<CartLine>, catalog: seq<Product>, id: string, q: int): Change<seq<CartLine>>
  {
    var i := LineIndex(cart, id);
    if i < 0 then Unchanged([])
    else if q <= 0 then Saved(SpliceOut(cart, i), [])
    else
      var found := Find(catalog, id);
      if found.Some? && q > found.value.stock then Saved(cart[i := cart[i].(quantity := found.value.stock)], [StockLimit(found.value.stock)])
      else Saved(cart[i := cart[i].(quantity := q)], [])
  }

  /** When the product is in the catalog both copies leave the same cart. */
  lemma ScriptUpdateAgreesWhenFound(cart: seq<CartLine>, catalog: seq<Product>, id: string, q: int)
    requires Find(catalog, id).Some?
    ensures ScriptUpdate(cart, catalog, id, q).After(cart) == UpdateQuantity(cart, catalog, id, q).After(cart)
  {
  }

  /** When the product has left the catalog the cart page does nothing, while this copy still removes the line
      or writes the requested quantity as it is. */
  lemma ScriptUpdateWhenMissing(cart: seq<CartLine>, catalog: seq<Product>, id: string, q: int)
    requires HasId(cart, LineId, id) && Find(catalog, id).None?
    ensures UpdateQuantity(cart, catalog, id, q).Unchanged?
    ensures var i := LineIndex(cart, id);
      ScriptUpdate(cart, catalog, id, q).value == if q <= 0 then SpliceOut(cart, i) else cart[i := cart[i].(quantity := q)]
  {
  }

  method ScriptUpdateCartItemQuantity(store: Store, catalog: seq<Product>, id: string, q: int) returns (notices: seq<Notice>)
    modifies store
    ensures var c := ScriptUpdate(old(store.GetCart()), catalog, id, q);
      notices == c.notices &&
      (c.Unchanged? ==> store.cartSlot == old(store.cartSlot)) && (c.Saved? ==> store.cartSlot == Some(c.value))
    ensures store.wishlistSlot == old(store.wishlistSlot) && store.usersSlot == old(store.usersSlot)
    ensures store.sessionSlot == old(store.sessionSlot)
  {
    notices := [];
    var cart := store.GetCart();
    var i := LineIndex(cart, id);
    if i > -1 {
      if q <= 0 {
        cart := SpliceOut(cart, i);
      } else {
        var found := Find(catalog, id);
        if found.Some? && q > found.value.stock {
          notices := [StockLimit(found.value.stock)];
          cart := cart[i := cart[i].(quantity := found.value.stock)];
        } else {
          cart := cart[i := cart[i].(quantity := q)];
        }
      }
      store.SetCart(cart);
    }
  }

  /** `removeCartItem` in this copy: the same filter, with no message. */
  method ScriptRemoveCartItem(store: Store, id: string)
    modifies store
    ensures store.cartSlot == Some(RemoveLines(old(store.GetCart()), id))
    ensures store.wishlistSlot == old(store.wishlistSlot) && store.usersSlot == old(store.usersSlot)
    ensures store.sessionSlot == old(store.sessionSlot)
  {
    var cart := store.GetCart();
    cart := RemoveLines(cart, id);
    store.SetCart(cart);
  }

  // ---------------------------------------------------------------- cart title

  /** `renderCart` in this copy: "Your Shopping Cart (n items)" counts lines, not units. */
  method ScriptRenderCart(store: Store, catalog: seq<Product>) returns (view: CartView)
    ensures view.titleCount == |store.GetCart()|
    ensures view.summary == Charges(Subtotal(store.GetCart(), catalog))
    ensures view.checkoutEnabled <==> |store.GetCart()| > 0
  {
    var cart := store.GetCart();
    if |cart| == 0 {
      return CartView(0, Summary(0, 0, 0.0, 0.0), false);
    }
    var summary := CalculateCartSummary(store, catalog);
    view := CartView(|cart|, summary, true);
  }

  /** With at least one unit per line, the line count never exceeds the unit count, and the two titles agree
      exactly when every line holds a single unit. */
  lemma {:induction false} LineCountVersusUnits(cart: seq<CartLine>)
    requires PositiveQuantities(cart)
    ensures |cart| <= SumQuantities(cart)
    ensures |cart| == SumQuantities(cart) <==> forall k :: 0 <= k < |cart| ==> cart[k].quantity == 1
  {
    if |cart| > 0 {
      var init := cart[..|cart| - 1];
      assert PositiveQuantities(init) by {
        forall k | 0 <= k < |init| ensures init[k].quantity >= 1 { assert init[k] == cart[k]; }
      }
      LineCountVersusUnits(init);
      if forall k :: 0 <= k < |cart| ==> cart[k].quantity == 1 {
        assert forall k :: 0 <= k < |init| ==> init[k].quantity == 1 by {
          forall k | 0 <= k < |init| ensures init[k].quantity == 1 { assert init[k] == cart[k]; }
        }
      }
      if |cart| == SumQuantities(cart) {
        forall k | 0 <= k < |cart| ensures cart[k].quantity == 1 {
          if k < |init| { assert cart[k] == init[k]; }
        }
      }
    }
  }

  // ---------------------------------------------------------------- listing

  /** `updateProductCountDisplay` in this copy: the start is shown even for an empty listing. */
  function LegacyCountDisplay(page: int, total: nat): CountDisplay
  {
    var start := (page - 1) * ProductsPerPage + 1;
    var end := if start + ProductsPerPage - 1 < total then start + ProductsPerPage - 1 else total;
    CountDisplay(start, end, total)
  }

  /** The two count lines agree on every non-empty listing; on an empty one this copy reads "1-0 of 0". */
  lemma LegacyCountDisplayAgrees(page: int, total: nat)
    ensures total > 0 ==> LegacyCountDisplay(page, total) == ProductCountDisplay(page, total)
    ensures LegacyCountDisplay(1, 0) == CountDisplay(1, 0, 0) && ProductCountDisplay(1, 0) == CountDisplay(0, 0, 0)
  {
  }

  /** The listing state of this copy; it starts from the whole catalog. */
  class LegacyListing {
    const catalog: seq<Product>
    var currentPage: int
    var filteredAndSorted: seq<Product>
    var currentSortBy: string

    ghost predicate Valid()
      reads this
    {
      1 <= currentPage
    }

    constructor (catalog: seq<Product>)
      ensures this.catalog == catalog
      ensures currentPage == 1 && filteredAndSorted == catalog && currentSortBy == "popularity"
      ensures Valid()
    {
      this.catalog := catalog;
      currentPage := 1;
      filteredAndSorted := catalog;
      currentSortBy := "popularity";
    }

    method RenderProducts() returns (view: ListingView)
      ensures view.shown == PageSlice(filteredAndSorted, currentPage)
      ensures view.count == LegacyCountDisplay(currentPage, |filteredAndSorted|)
      ensures view.items == PageItems(currentPage, TotalPages(|filteredAndSorted|))
    {
      var start := (currentPage - 1) * ProductsPerPage;
      var shown := Slice(filteredAndSorted, start, start + ProductsPerPage);
      var items := RenderPagination(currentPage, |filteredAndSorted|);
      view := ListingView(shown, LegacyCountDisplay(currentPage, |filteredAndSorted|), items);
    }

    method ApplySorting() returns (view: ListingView)
      requires Valid()
      modifies this
      ensures filteredAndSorted == SortProducts(ParseSortBy(currentSortBy), old(filteredAndSorted))
      ensures currentPage == old(currentPage) && currentSortBy == old(currentSortBy)
      ensures Valid()
      ensures view.shown == PageSlice(filteredAndSorted, currentPage)
    {
      filteredAndSorted := SortProducts(ParseSortBy(currentSortBy), filteredAndSorted);
      view := RenderProducts();
    }

    /** `filterAndRenderProducts()` in this copy: the same filter, but the page is left where it was. */
    method FilterAndRenderProducts(selected: seq<string>, minPrice: Option<real>, maxPrice: Option<real>)
      returns (view: ListingView)
      requires Valid()
      modifies this
      ensures filteredAndSorted == SortProducts(ParseSortBy(currentSortBy), FilterProducts(catalog, selected, minPrice, maxPrice))
      ensures currentPage == old(currentPage) && currentSortBy == old(currentSortBy)
      ensures Valid()
      ensures view.shown == PageSlice(filteredAndSorted, currentPage)
    {
      filteredAndSorted := FilterProducts(catalog, selected, minPrice, maxPrice);
      view := ApplySorting();
    }

    method ClickPageItem(item: PageItem) returns (view: ListingView)
      requires Valid()
      requires item in PageItems(currentPage, TotalPages(|filteredAndSorted|))
      modifies this
      ensures currentPage == Click(old(currentPage), item)
      ensures filteredAndSorted == old(filteredAndSorted) && currentSortBy == old(currentSortBy)
      ensures Valid()
      ensures view.shown == PageSlice(filteredAndSorted, currentPage)
    {
      if !item.disabled && !item.active {
        currentPage := item.target;
      }
      view := RenderProducts();
    }
  }

  /** Keeping the page across a filter can leave it past the end: a filter that keeps at most one page of
      products, applied on page 2, shows an empty page whose count line starts after it ends ("10-3 of 3").
      This is a fact about `filterAndRenderProducts` alone: every listener in `script.js` that calls it sets
      the page back to 1 first, so no user action reaches this state. */
  lemma LegacyFilterCanStrandPage(kept: seq<Product>)
    requires |kept| <= ProductsPerPage
    ensures PageSlice(kept, 2) == []
    ensures LegacyCountDisplay(2, |kept|) == CountDisplay(10, |kept|, |kept|)
    ensures TotalPages(|kept|) < 2
  {
  }
}
