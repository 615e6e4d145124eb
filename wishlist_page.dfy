/**
 * javascript/wishlistPage.js: the wishlist cards, their Add-to-Cart offer, and the Remove button.
 */
module WishlistPage {
  import opened Wrappers
  import opened JsBuiltins
  import opened Data
  import opened Utils
  import opened ProductCardHandlers

  /** `product && product.stock > 0` for the product the item refers to. */
  predicate IsStockAvailable(catalog: seq<Product>, id: string)
  {
    Find(catalog, id).Some? && Find(catalog, id).value.stock > 0
  }

  /** What a rendered wishlist card offers: an Add-to-Cart button, or a disabled "Out of Stock" one. */
  datatype WishCard = WishCard(id: string, offersAddToCart: bool)

  /** The cards `renderWishlist` draws, one per stored item, in wishlist order. */
  function WishlistCards(wishlist: seq<WishItem>, catalog: seq<Product>): (cards: seq<WishCard>)
    ensures |cards| == |wishlist|
    ensures forall k :: 0 <= k < |cards| ==> cards[k].id == wishlist[k].id
  {
    seq(|wishlist|, k requires 0 <= k < |wishlist| => WishCard(wishlist[k].id, IsStockAvailable(catalog, wishlist[k].id)))
  }

  /** On the storefront catalog every listed product is available, so exactly the items naming a product get the offer. */
  lemma AvailableInStorefront(id: string)
    ensures IsStockAvailable(Products, id) <==> exists k :: 0 <= k < |Products| && Products[k].id == id
  {
    ProductsStockedAndPriced();
    if Find(Products, id).Some? {
      var k :| 0 <= k < |Products| && Products[k] == Find(Products, id).value && Products[k].id == id;
    }
  }

  /** An offered Add-to-Cart is never refused as an unknown or sold-out product: only the per-line stock limit
      can refuse it. Cards without the offer name exactly the items that would be refused that way. */
  lemma OfferedAddOnlyMeetsStockLimit(wishlist: seq<WishItem>, catalog: seq<Product>, cart: seq<CartLine>, k: nat)
    requires k < |wishlist|
    ensures var card := WishlistCards(wishlist, catalog)[k];
      var c := CardAdd(cart, catalog, card.id);
      (card.offersAddToCart ==> c.notices != [ProductNotFound] && c.notices != [OutOfStock] &&
                                (c.Unchanged? <==> QuantityOf(cart, card.id) + 1 > Find(catalog, card.id).value.stock)) &&
      (!card.offersAddToCart ==> c.Unchanged? && (c.notices == [ProductNotFound] || c.notices == [OutOfStock]))
  {
    var card := WishlistCards(wishlist, catalog)[k];
    CardAddRefusals(cart, catalog, card.id);
  }

  /** Removal drops every entry of the id, keeps the others in order, is idempotent, and leaves a wishlist
      without the id as it is. */
  lemma RemoveItemsMeaning(wishlist: seq<WishItem>, id: string)
    ensures !InWishlist(RemoveItems(wishlist, id), id)
    ensures IsSubsequence(RemoveItems(wishlist, id), wishlist)
    ensures forall w :: w in RemoveItems(wishlist, id) <==> w in wishlist && w.id != id
    ensures RemoveItems(RemoveItems(wishlist, id), id) == RemoveItems(wishlist, id)
    ensures !InWishlist(wishlist, id) ==> RemoveItems(wishlist, id) == wishlist
  {
    WithoutIdIsSubsequence(wishlist, ItemId, id);
    WithoutIdIdempotent(wishlist, ItemId, id);
    WithoutIdMembers(wishlist, ItemId, id);
    if !InWishlist(wishlist, id) { WithoutAbsentId(wishlist, ItemId, id); }
  }

  /** `handleRemoveFromWishlist(productId)`. */
  method HandleRemoveFromWishlist(store: Store, id: string) returns (notices: seq<Notice>)
    modifies store
    ensures store.wishlistSlot == Some(RemoveItems(old(store.GetWishlist()), id))
    ensures notices == [RemovedFromWishlist]
    ensures store.cartSlot == old(store.cartSlot) && store.usersSlot == old(store.usersSlot)
    ensures store.sessionSlot == old(store.sessionSlot)
  {
    var wishlist := store.GetWishlist();
    store.SetWishlist(RemoveItems(wishlist, id));
    notices := [RemovedFromWishlist];
  }

  /** Toggle first (the listener `addProductCardEventListeners` attached), then remove, is a single removal,
      whatever the wishlist and the id. */
  lemma ToggleThenRemoveIsRemove(wishlist: seq<WishItem>, catalog: seq<Product>, id: string)
    ensures RemoveItems(CardToggle(wishlist, catalog, id).After(wishlist), id) == RemoveItems(wishlist, id)
  {
    var c := CardToggle(wishlist, catalog, id);
    if c.Saved? {
      if InWishlist(wishlist, id) {
        WithoutIdIdempotent(wishlist, ItemId, id);
      } else {
        var p := Find(catalog, id).value;
        var item := WishItem(p.id, Picked(p.name, p.price, p.image, None));
        WithoutIdConcat(wishlist, [item], ItemId, id);
        assert [item][..0] == [];
      }
    }
  }

  /** A click on a card's Remove button: both listeners of the `toggle-wishlist-btn`, in the order they were added. */
  method ClickRemoveButton(store: Store, catalog: seq<Product>, id: string) returns (notices: seq<Notice>)
    modifies store
    ensures store.wishlistSlot == Some(RemoveItems(old(store.GetWishlist()), id))
    ensures notices == CardToggle(old(store.GetWishlist()), catalog, id).notices + [RemovedFromWishlist]
    ensures store.cartSlot == old(store.cartSlot) && store.usersSlot == old(store.usersSlot)
    ensures store.sessionSlot == old(store.sessionSlot)
  {
    ghost var before := store.GetWishlist();
    var first := HandleToggleWishlistClick(store, catalog, id);
    assert store.GetWishlist() == CardToggle(before, catalog, id).After(before);
    var second := HandleRemoveFromWishlist(store, id);
    ToggleThenRemoveIsRemove(before, catalog, id);
    notices := first + second;
  }
}
