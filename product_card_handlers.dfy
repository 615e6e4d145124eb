/**
 * javascript/productCardHandlers.js: the "Add to Cart" and "Toggle Wishlist" buttons shared by the
 * listing, home and wishlist pages.
 */
module ProductCardHandlers {
  import opened Wrappers
  import opened JsBuiltins
  import opened Data
  import opened Utils

  // ---------------------------------------------------------------- add to cart

  /** What `handleAddToCartClick` does to the stored cart. */
  function CardAdd(cart: seq<CartLine>, catalog: seq<Product>, id: string): Change<seq<CartLine>>
  {
    match Find(catalog, id)
    case None => Unchanged([ProductNotFound])
    case Some(p) =>
      if p.stock <= 0 then Unchanged([OutOfStock])
      else
        var i := LineIndex(cart, id);
        if i >= 0 then
          if cart[i].quantity + 1 > p.stock then Unchanged([StockLimit(p.stock)])
          else Saved(cart[i := cart[i].(quantity := cart[i].quantity + 1)], [AddedToCart])
        else Saved(cart + [CartLine(p.id, 1, Whole(p))], [AddedToCart])
  }

  /** The add is refused exactly when the product is unknown, out of stock, or one more unit would pass its stock;
      each refusal has its own message, and a successful add says so. */
  lemma CardAddRefusals(cart: seq<CartLine>, catalog: seq<Product>, id: string)
    ensures var c := CardAdd(cart, catalog, id);
      var found := Find(catalog, id);
      (c.Unchanged? <==> found.None? || found.value.stock <= 0 || QuantityOf(cart, id) + 1 > found.value.stock) &&
      (found.None? ==> c.notices == [ProductNotFound]) &&
      (found.Some? && found.value.stock <= 0 ==> c.notices == [OutOfStock]) &&
      (found.Some? && found.value.stock > 0 && QuantityOf(cart, id) + 1 > found.value.stock ==>
         c.notices == [StockLimit(found.value.stock)]) &&
      (c.Saved? ==> c.notices == [AddedToCart])
  {
  }

  /** A successful add raises the quantity of `id` by one and leaves the quantity of every other id alone. */
  lemma {:induction false} CardAddIncrements(cart: seq<CartLine>, catalog: seq<Product>, id: string, other: string)
    requires CardAdd(cart, catalog, id).Saved?
    ensures QuantityOf(CardAdd(cart, catalog, id).value, other) == QuantityOf(cart, other) + (if other == id then 1 else 0)
  {
    var p := Find(catalog, id).value;
    var i := LineIndex(cart, id);
    if i >= 0 {
      assert CardAdd(cart, catalog, id).value == cart[i := cart[i].(quantity := cart[i].quantity + 1)];
      QuantityOfAfterSet(cart, i, cart[i].quantity + 1, other);
    } else {
      assert CardAdd(cart, catalog, id).value == cart + [CartLine(p.id, 1, Whole(p))];
      QuantityOfAfterAppend(cart, CartLine(p.id, 1, Whole(p)), other);
    }
  }

  /** A successful add raises the cart badge by exactly one. */
  lemma {:induction false} CardAddBadge(cart: seq<CartLine>, catalog: seq<Product>, id: string)
    requires CardAdd(cart, catalog, id).Saved?
    ensures SumQuantities(CardAdd(cart, catalog, id).value) == SumQuantities(cart) + 1
  {
    var p := Find(catalog, id).value;
    var i := LineIndex(cart, id);
    if i >= 0 {
      SumQuantitiesAfterSet(cart, i, cart[i].quantity + 1);
    } else {
      var line := CartLine(p.id, 1, Whole(p));
      SumQuantitiesConcat(cart, [line]);
      assert [line][..0] == [];
    }
  }

  /** The add never creates a second line for a product. */
  lemma {:induction false} CardAddKeepsOneLinePerId(cart: seq<CartLine>, catalog: seq<Product>, id: string)
    requires OneLinePerId(cart)
    ensures OneLinePerId(CardAdd(cart, catalog, id).After(cart))
  {
    var c := CardAdd(cart, catalog, id);
    if c.Saved? {
      var p := Find(catalog, id).value;
      var i := LineIndex(cart, id);
      if i >= 0 {
        ReplaceSameIdKeepsUnique(cart, LineId, i, cart[i].(quantity := cart[i].quantity + 1));
      } else {
        AppendFreshIdKeepsUnique(cart, LineId, CartLine(p.id, 1, Whole(p)));
      }
    }
  }

  /** The add never takes a line past its product's stock. */
  lemma {:induction false} CardAddKeepsWithinStock(cart: seq<CartLine>, catalog: seq<Product>, id: string)
    requires WithinStock(cart, catalog)
    ensures WithinStock(CardAdd(cart, catalog, id).After(cart), catalog)
  {
    var c := CardAdd(cart, catalog, id);
    if c.Saved? {
      var p := Find(catalog, id).value;
      var i := LineIndex(cart, id);
      var t := c.value;
      forall k | 0 <= k < |t| && Find(catalog, t[k].id).Some?
        ensures t[k].quantity <= Find(catalog, t[k].id).value.stock
      {
        if k < |cart| && (i < 0 || k != i) {
          assert t[k] == cart[k];
        }
      }
    }
  }

  /** `handleAddToCartClick`: on success the cart is saved, and a click on the wishlist page also drops the
      product from the wishlist. */
  method HandleAddToCartClick(store: Store, catalog: seq<Product>, id: string, onWishlistPage: bool)
    returns (notices: seq<Notice>)
    modifies store
    ensures var c := CardAdd(old(store.GetCart()), catalog, id);
      (c.Unchanged? ==> store.cartSlot == old(store.cartSlot) && store.wishlistSlot == old(store.wishlistSlot) &&
                        notices == c.notices) &&
      (c.Saved? ==>
         store.cartSlot == Some(c.value) &&
         (onWishlistPage ==>
            store.wishlistSlot == Some(RemoveItems(old(store.GetWishlist()), id)) &&
            notices == c.notices + [MovedFromWishlist]) &&
         (!onWishlistPage ==> store.wishlistSlot == old(store.wishlistSlot) && notices == c.notices))
    ensures store.usersSlot == old(store.usersSlot) && store.sessionSlot == old(store.sessionSlot)
  {
    ghost var c := CardAdd(store.GetCart(), catalog, id);
    var found := Find(catalog, id);
    if found.None? {
      return [ProductNotFound];
    }
    var product := found.value;
    if product.stock <= 0 {
      return [OutOfStock];
    }
    var cart := store.GetCart();
    var i := LineIndex(cart, id);
    if i >= 0 {
      if cart[i].quantity + 1 > product.stock {
        return [StockLimit(product.stock)];
      }
      cart := cart[i := cart[i].(quantity := cart[i].quantity + 1)];
    } else {
      cart := cart + [CartLine(product.id, 1, Whole(product))];
    }
    assert c == Saved(cart, [AddedToCart]);
    store.SetCart(cart);
    notices := [AddedToCart];
    if onWishlistPage {
      var wishlist := store.GetWishlist();
      store.SetWishlist(RemoveItems(wishlist, id));
      notices := notices + [MovedFromWishlist];
    }
  }

  // ---------------------------------------------------------------- toggle wishlist

  /** What `handleToggleWishlistClick` does to the stored wishlist. */
  function CardToggle(wishlist: seq<WishItem>, catalog: seq<Product>, id: string): Change<seq<WishItem>>
  {
    match Find(catalog, id)
    case None => Unchanged([])
    case Some(p) =>
      if InWishlist(wishlist, id) then Saved(RemoveItems(wishlist, id), [RemovedFromWishlist])
      else Saved(wishlist + [WishItem(p.id, Picked(p.name, p.price, p.image, None))], [AddedToWishlist])
  }

  /** For a known product the toggle flips its membership and no other id's; an unknown id changes nothing
      and says nothing. */
  lemma CardToggleFlips(wishlist: seq<WishItem>, catalog: seq<Product>, id: string, other: string)
    ensures var c := CardToggle(wishlist, catalog, id);
      (Find(catalog, id).None? <==> c.Unchanged?) &&
      (c.Unchanged? ==> c.notices == []) &&
      (c.Saved? ==>
         (InWishlist(c.value, id) <==> !InWishlist(wishlist, id)) &&
         (other != id ==> (InWishlist(c.value, other) <==> InWishlist(wishlist, other))) &&
         c.notices == if InWishlist(wishlist, id) then [RemovedFromWishlist] else [AddedToWishlist])
  {
    var c := CardToggle(wishlist, catalog, id);
    if c.Saved? && InWishlist(wishlist, id) {
      var t := c.value;
      WithoutIdMembers(wishlist, ItemId, id);
      if other != id {
        if InWishlist(t, other) {
          var k :| 0 <= k < |t| && ItemId(t[k]) == other;
          assert t[k] in t;
        }
        if InWishlist(wishlist, other) {
          var k :| 0 <= k < |wishlist| && ItemId(wishlist[k]) == other;
          assert wishlist[k] in wishlist;
        }
      }
    }
    if c.Saved? && !InWishlist(wishlist, id) {
      var t := c.value;
      assert ItemId(t[|wishlist|]) == id;
      assert forall k :: 0 <= k < |wishlist| ==> t[k] == wishlist[k];
      if InWishlist(t, other) && other != id {
        var k :| 0 <= k < |t| && ItemId(t[k]) == other;
        assert k < |wishlist|;
      }
    }
  }

  /** Adding and then removing a product restores the wishlist exactly. */
  lemma CardToggleTwice(wishlist: seq<WishItem>, catalog: seq<Product>, id: string)
    requires Find(catalog, id).Some? && !InWishlist(wishlist, id)
    ensures CardToggle(CardToggle(wishlist, catalog, id).value, catalog, id).value == wishlist
  {
    var p := Find(catalog, id).value;
    var item := WishItem(p.id, Picked(p.name, p.price, p.image, None));
    WithoutIdConcat(wishlist, [item], ItemId, id);
    WithoutAbsentId(wishlist, ItemId, id);
    assert [item][..0] == [];
    assert ItemId((wishlist + [item])[|wishlist|]) == id;
  }

  /** The toggle never puts a product on the wishlist twice. */
  lemma CardToggleKeepsUnique(wishlist: seq<WishItem>, catalog: seq<Product>, id: string)
    requires UniqueIds(wishlist, ItemId)
    ensures UniqueIds(CardToggle(wishlist, catalog, id).After(wishlist), ItemId)
  {
    var c := CardToggle(wishlist, catalog, id);
    if c.Saved? {
      if InWishlist(wishlist, id) {
        WithoutIdKeepsUnique(wishlist, ItemId, id);
      } else {
        var p := Find(catalog, id).value;
        AppendFreshIdKeepsUnique(wishlist, ItemId, WishItem(p.id, Picked(p.name, p.price, p.image, None)));
      }
    }
  }

  /** `handleToggleWishlistClick`. */
  method HandleToggleWishlistClick(store: Store, catalog: seq<Product>, id: string) returns (notices: seq<Notice>)
    modifies store
    ensures var c := CardToggle(old(store.GetWishlist()), catalog, id);
      notices == c.notices &&
      (c.Unchanged? ==> store.wishlistSlot == old(store.wishlistSlot)) &&
      (c.Saved? ==> store.wishlistSlot == Some(c.value))
    ensures store.cartSlot == old(store.cartSlot) && store.usersSlot == old(store.usersSlot)
    ensures store.sessionSlot == old(store.sessionSlot)
  {
    var found := Find(catalog, id);
    if found.None? {
      return [];
    }
    var product := found.value;
    var wishlist := store.GetWishlist();
    if InWishlist(wishlist, id) {
      wishlist := RemoveItems(wishlist, id);
      notices := [RemovedFromWishlist];
    } else {
      wishlist := wishlist + [WishItem(product.id, Picked(product.name, product.price, product.image, None))];
      notices := [AddedToWishlist];
    }
    store.SetWishlist(wishlist);
  }
}
