/**
 * javascript/productDetailPage.js: the product page's Add-to-Cart and wishlist buttons, and the related products.
 */
module ProductDetailPage {
  import opened Wrappers
  import opened JsBuiltins
  import opened Data
  import opened Utils
  import opened ProductCardHandlers

  // ---------------------------------------------------------------- related products

  /** `products.filter(p => p.category === product.category && p.id !== product.id)`. */
  function RelatedCandidates(catalog: seq<Product>, product: Product): (r: seq<Product>)
    ensures forall q :: q in r <==> q in catalog && q.category == product.category && q.id != product.id
  {
    if |catalog| == 0 then []
    else
      var rest := RelatedCandidates(catalog[..|catalog| - 1], product);
      var last := catalog[|catalog| - 1];
      assert catalog == catalog[..|catalog| - 1] + [last];
      if last.category == product.category && last.id != product.id then rest + [last] else rest
  }

  /** The related products: the first four candidates. */
  function Related(catalog: seq<Product>, product: Product): seq<Product>
  {
    Slice(RelatedCandidates(catalog, product), 0, 4)
  }

  lemma {:induction false} RelatedCandidatesSubsequence(catalog: seq<Product>, product: Product)
    ensures IsSubsequence(RelatedCandidates(catalog, product), catalog)
  {
    if |catalog| > 0 {
      var init := catalog[..|catalog| - 1];
      RelatedCandidatesSubsequence(init, product);
      var last := catalog[|catalog| - 1];
      if last.category == product.category && last.id != product.id {
        var rest := RelatedCandidates(init, product);
        assert (rest + [last])[..|rest|] == rest;
      } else {
        SubsequenceOfLonger(RelatedCandidates(init, product), init, last);
        assert init + [last] == catalog;
      }
    }
  }

  /** At most four related products, all of the product's category, none the product itself, in catalog order;
      fewer than four only when there are no more candidates. */
  lemma RelatedMeaning(catalog: seq<Product>, product: Product)
    ensures var r := Related(catalog, product);
      var cands := RelatedCandidates(catalog, product);
      |r| <= 4 && |r| == (if |cands| < 4 then |cands| else 4) &&
      (forall q :: q in r ==> q in catalog && q.category == product.category && q.id != product.id) &&
      r == cands[..|r|] && IsSubsequence(r, catalog)
  {
    var cands := RelatedCandidates(catalog, product);
    var r := Related(catalog, product);
    assert r == cands[..|r|];
    RelatedCandidatesSubsequence(catalog, product);
    SubsequenceTake(cands, catalog, |r|);
  }

  /** What `renderProductDetail` needs to decide: the product, or nothing (the page then attaches no handler). */
  datatype DetailView = DetailView(product: Product, related: seq<Product>)

  function RenderProductDetail(catalog: seq<Product>, id: string): (r: Option<DetailView>)
    ensures r.None? <==> Find(catalog, id).None?
    ensures r.Some? ==> r.value.product == Find(catalog, id).value && r.value.product.id == id &&
                        r.value.related == Related(catalog, r.value.product)
  {
    match Find(catalog, id)
    case None => None
    case Some(p) => Some(DetailView(p, Related(catalog, p)))
  }

  // ---------------------------------------------------------------- add to cart

  /** What the detail page's Add-to-Cart click does to the stored cart, for the product the page shows. */
  function DetailAdd(cart: seq<CartLine>, product: Product): Change<seq<CartLine>>
  {
    var i := LineIndex(cart, product.id);
    if i > -1 then
      if cart[i].quantity < product.stock then Saved(cart[i := cart[i].(quantity := cart[i].quantity + 1)], [QuantityUpdated])
      else Unchanged([MaxStockReached])
    else if product.stock > 0 then
      Saved(cart + [CartLine(product.id, 1, Picked(product.name, product.price, product.image, Some(product.stock)))], [AddedToCart])
    else Unchanged([OutOfStock])
  }

  /** The add is refused exactly when an existing line has reached the stock, or when there is no line and
      nothing is in stock. */
  lemma DetailAddRefusals(cart: seq<CartLine>, product: Product)
    ensures var c := DetailAdd(cart, product);
      (c.Unchanged? <==> (HasId(cart, LineId, product.id) && QuantityOf(cart, product.id) >= product.stock) ||
                         (!HasId(cart, LineId, product.id) && product.stock <= 0)) &&
      (c.Saved? ==> SumQuantities(c.value) == SumQuantities(cart) + 1 &&
                    QuantityOf(c.value, product.id) == QuantityOf(cart, product.id) + 1)
  {
    var c := DetailAdd(cart, product);
    if c.Saved? {
      var i := LineIndex(cart, product.id);
      if i > -1 {
        SumQuantitiesAfterSet(cart, i, cart[i].quantity + 1);
        QuantityOfAfterSet(cart, i, cart[i].quantity + 1, product.id);
      } else {
        var line := CartLine(product.id, 1, Picked(product.name, product.price, product.image, Some(product.stock)));
        SumQuantitiesConcat(cart, [line]);
        assert [line][..0] == [];
        QuantityOfAfterAppend(cart, line, product.id);
      }
    }
  }

  /** The (id, quantity) pairs of a cart, forgetting what each line copied from its product. */
  function Pairs(cart: seq<CartLine>): (r: seq<(string, int)>)
    ensures |r| == |cart|
    ensures forall k :: 0 <= k < |r| ==> r[k] == (cart[k].id, cart[k].quantity)
  {
    seq(|cart|, k requires 0 <= k < |cart| => (cart[k].id, cart[k].quantity))
  }

  /** Where the cart holds no negative quantity, the detail page's add and the product cards' add accept and
      refuse the same clicks and leave the same (id, quantity) pairs. */
  lemma DetailAddAgreesWithCardAdd(cart: seq<CartLine>, catalog: seq<Product>, product: Product)
    requires Find(catalog, product.id) == Some(product)
    requires forall k :: 0 <= k < |cart| ==> cart[k].quantity >= 0
    ensures var d, c := DetailAdd(cart, product), CardAdd(cart, catalog, product.id);
      d.Saved? == c.Saved? && (d.Saved? ==> Pairs(d.value) == Pairs(c.value))
  {
    var d, c := DetailAdd(cart, product), CardAdd(cart, catalog, product.id);
    if d.Saved? && c.Saved? {
      var pd, pc := Pairs(d.value), Pairs(c.value);
      assert |pd| == |pc|;
      forall k | 0 <= k < |pd| ensures pd[k] == pc[k] {
      }
    }
  }

  /** The agreement needs the non-negative quantities: a line at -1 of a sold-out product is raised by the
      detail page and refused by the product cards. */
  lemma DetailAddDivergesOnNegativeQuantity()
    ensures var p := Product("x-1", "X", 500, "audio", "x.png", 0, 0);
      var cart := [CartLine("x-1", -1, Whole(p))];
      DetailAdd(cart, p).Saved? && CardAdd(cart, [p], "x-1").Unchanged?
  {
    var p := Product("x-1", "X", 500, "audio", "x.png", 0, 0);
    var cart := [CartLine("x-1", -1, Whole(p))];
    assert LineIndex(cart, "x-1") == 0;
    assert FindIndexById([p], ProductId, "x-1") == 0;
  }

  /** The add keeps one line per id, and keeps every line within stock when the page's product is the catalog's. */
  lemma DetailAddKeepsInvariants(cart: seq<CartLine>, catalog: seq<Product>, product: Product)
    requires Find(catalog, product.id) == Some(product)
    ensures OneLinePerId(cart) ==> OneLinePerId(DetailAdd(cart, product).After(cart))
    ensures WithinStock(cart, catalog) ==> WithinStock(DetailAdd(cart, product).After(cart), catalog)
  {
    var c := DetailAdd(cart, product);
    if c.Saved? {
      var i := LineIndex(cart, product.id);
      if OneLinePerId(cart) {
        if i > -1 {
          ReplaceSameIdKeepsUnique(cart, LineId, i, c.value[i]);
        } else {
          AppendFreshIdKeepsUnique(cart, LineId, c.value[|cart|]);
        }
      }
      if WithinStock(cart, catalog) {
        var t := c.value;
        forall k | 0 <= k < |t| && Find(catalog, t[k].id).Some?
          ensures t[k].quantity <= Find(catalog, t[k].id).value.stock
        {
          if k < |cart| && (i < 0 || k != i) {
            assert t[k] == cart[k];
          }
        }
      }
    }
  }

  /** The Add-to-Cart listener `renderProductDetail` attaches for `product`. */
  method HandleDetailAddToCart(store: Store, product: Product) returns (notices: seq<Notice>)
    modifies store
    ensures var c := DetailAdd(old(store.GetCart()), product);
      notices == c.notices &&
      (c.Unchanged? ==> store.cartSlot == old(store.cartSlot)) &&
      (c.Saved? ==> store.cartSlot == Some(c.value))
    ensures store.wishlistSlot == old(store.wishlistSlot) && store.usersSlot == old(store.usersSlot)
    ensures store.sessionSlot == old(store.sessionSlot)
  {
    var cart := store.GetCart();
    var i := LineIndex(cart, product.id);
    if i > -1 {
      if cart[i].quantity < product.stock {
        cart := cart[i := cart[i].(quantity := cart[i].quantity + 1)];
        notices := [QuantityUpdated];
      } else {
        return [MaxStockReached];
      }
    } else {
      if product.stock > 0 {
        cart := cart + [CartLine(product.id, 1, Picked(product.name, product.price, product.image, Some(product.stock)))];
        notices := [AddedToCart];
      } else {
        return [OutOfStock];
      }
    }
    store.SetCart(cart);
  }

  // ---------------------------------------------------------------- wishlist toggle

  /** What the detail page's wishlist click does: splice out the first entry of the product, or push the whole product. */
  function DetailToggle(wishlist: seq<WishItem>, product: Product): Change<seq<WishItem>>
  {
    var i := FindIndexById(wishlist, ItemId, product.id);
    if i > -1 then Saved(SpliceOut(wishlist, i), [RemovedFromWishlist])
    else Saved(wishlist + [WishItem(product.id, Whole(product))], [AddedToWishlist])
  }

  /** Adding and then removing restores the wishlist exactly. */
  lemma DetailToggleTwice(wishlist: seq<WishItem>, product: Product)
    requires !InWishlist(wishlist, product.id)
    ensures DetailToggle(DetailToggle(wishlist, product).value, product).value == wishlist
  {
    var t := DetailToggle(wishlist, product).value;
    assert ItemId(t[|wishlist|]) == product.id;
    assert forall k :: 0 <= k < |wishlist| ==> ItemId(t[k]) != product.id;
    assert FindIndexById(t, ItemId, product.id) == |wishlist|;
    assert SpliceOut(t, |wishlist|) == wishlist;
  }

  /** On a wishlist with one entry per id, the detail toggle and the card toggle leave the same ids, and
      both keep one entry per id. */
  lemma DetailToggleAgreesWithCardToggle(wishlist: seq<WishItem>, catalog: seq<Product>, product: Product)
    requires UniqueIds(wishlist, ItemId)
    requires Find(catalog, product.id) == Some(product)
    ensures var d, c := DetailToggle(wishlist, product), CardToggle(wishlist, catalog, product.id);
      c.Saved? && Ids(d.value, ItemId) == Ids(c.value, ItemId) && UniqueIds(d.value, ItemId)
  {
    var d, c := DetailToggle(wishlist, product), CardToggle(wishlist, catalog, product.id);
    CardToggleKeepsUnique(wishlist, catalog, product.id);
    if InWishlist(wishlist, product.id) {
      SpliceFirstIsWithout(wishlist, ItemId, product.id);
    } else {
      assert FindIndexById(wishlist, ItemId, product.id) == -1;
      var a, b := Ids(d.value, ItemId), Ids(c.value, ItemId);
      assert |a| == |b|;
      forall k | 0 <= k < |a| ensures a[k] == b[k] {
      }
      AppendFreshIdKeepsUnique(wishlist, ItemId, d.value[|wishlist|]);
    }
  }

  /** The wishlist listener `renderProductDetail` attaches for `product`. */
  method HandleDetailToggleWishlist(store: Store, product: Product) returns (notices: seq<Notice>)
    modifies store
    ensures var c := DetailToggle(old(store.GetWishlist()), product);
      notices == c.notices && store.wishlistSlot == Some(c.value)
    ensures store.cartSlot == old(store.cartSlot) && store.usersSlot == old(store.usersSlot)
    ensures store.sessionSlot == old(store.sessionSlot)
  {
    var wishlist := store.GetWishlist();
    var i := FindIndexById(wishlist, ItemId, product.id);
    if i > -1 {
      wishlist := SpliceOut(wishlist, i);
      notices := [RemovedFromWishlist];
    } else {
      wishlist := wishlist + [WishItem(product.id, Whole(product))];
      notices := [AddedToWishlist];
    }
    store.SetWishlist(wishlist);
  }
}
