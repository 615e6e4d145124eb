/**
 * javascript/main.js: the module-level cart and `clearCart`, the login guard for protected pages, and the
 * choice of page renderer from the URL path.
 */
module Main {
  import opened Wrappers
  import opened JsBuiltins
  import opened Utils

  /** `PROTECTED_PAGES`. */
  const ProtectedPages: seq<string> := [
    "index.html", "product-listing.html", "product-detail.html", "cart.html",
    "wishlist.html", "checkout.html", "my-account.html", "my-orders.html"
  ]

  /** `window.location.pathname.split('/').pop()`. */
  function PageName(pathname: string): string
  {
    LastSegment(pathname, '/')
  }

  /** The page name is the end of the path after its last `/`. */
  lemma PageNameMeaning(pathname: string)
    ensures var page := PageName(pathname);
      '/' !in page && pathname == pathname[..|pathname| - |page|] + page &&
      (|page| < |pathname| ==> pathname[|pathname| - |page| - 1] == '/')
  {
  }

  /** The guard of the `DOMContentLoaded` handler. */
  predicate ShouldRedirect(page: string, user: Option<User>)
  {
    page in ProtectedPages && user.None? && page != "login.html" && page != "signup.html"
  }

  /** A visitor is sent to the login page exactly when the page is protected and nobody is logged in; the login
      and signup pages themselves are never redirected. */
  lemma RedirectMeaning(page: string, user: Option<User>)
    ensures ShouldRedirect(page, user) <==> page in ProtectedPages && user.None?
    ensures page == "login.html" || page == "signup.html" ==> !ShouldRedirect(page, user)
    ensures user.Some? ==> !ShouldRedirect(page, user)
  {
  }

  /** The page-specific initialisation `main.js` picks. */
  datatype Renderer = Home | Listing | Detail | CartRenderer | WishlistRenderer | CheckoutRenderer | NoRenderer

  function Dispatch(page: string): Renderer
  {
    if page == "index.html" || page == "" then Home
    else if page == "product-listing.html" then Listing
    else if page == "product-detail.html" then Detail
    else if page == "cart.html" then CartRenderer
    else if page == "wishlist.html" then WishlistRenderer
    else if page == "checkout.html" then CheckoutRenderer
    else NoRenderer
  }

  /** Every page name reaches one renderer; the home page also answers to the empty name; any page with a
      renderer other than home is protected. */
  lemma DispatchMeaning(page: string)
    ensures Dispatch(page) == Home <==> page == "index.html" || page == ""
    ensures Dispatch(page) != NoRenderer && page != "" ==> page in ProtectedPages
    ensures Dispatch(page) == NoRenderer <==> page !in ProtectedPages[..6] && page != ""
  {
  }

  /** The root path names the empty page: it is not in the protected list, so the home page renders there
      without a login while `/index.html` asks for one. */
  lemma RootPathIsUnguarded()
    ensures PageName("/") == "" && Dispatch(PageName("/")) == Home && !ShouldRedirect(PageName("/"), None)
    ensures PageName("/index.html") == "index.html" && ShouldRedirect(PageName("/index.html"), None)
  {
    assert "/"[..0] == "";
    var p := "/index.html";
    assert p[1..] == "index.html";
    LastSegmentAfter(p, '/', 0);
  }

  /** What a page load ends in. */
  datatype Startup = RedirectToLogin | Rendered(renderer: Renderer)

  /** The user `getCurrentUser` returns for a stored session value. */
  function SessionUser(slot: Slot<User>): Option<User>
  {
    if slot.Holds? then Some(slot.value) else None
  }

  /** The `DOMContentLoaded` handler: read the current user (clearing unparsable data), then either redirect,
      which ends initialisation, or start the page's renderer. */
  method OnPageLoad(store: Store, pathname: string) returns (outcome: Startup)
    modifies store
    ensures var page, user := PageName(pathname), SessionUser(old(store.sessionSlot));
      outcome == if ShouldRedirect(page, user) then RedirectToLogin else Rendered(Dispatch(page))
    ensures store.sessionSlot == (if old(store.sessionSlot).Corrupt? then Absent else old(store.sessionSlot))
    ensures store.cartSlot == old(store.cartSlot) && store.wishlistSlot == old(store.wishlistSlot)
    ensures store.usersSlot == old(store.usersSlot)
  {
    var path := PageName(pathname);
    var currentUser := GetCurrentUser(store);
    if path in ProtectedPages && currentUser.None? {
      if path != "login.html" && path != "signup.html" {
        return RedirectToLogin;
      }
    }
    outcome := Rendered(Dispatch(path));
  }

  /** The module-level `cart` of `main.js`. */
  class MainModule {
    var cart: seq<CartLine>

    /** `let cart = JSON.parse(localStorage.getItem('cart')) || []`. */
    constructor (store: Store)
      ensures cart == store.GetCart()
    {
      cart := store.GetCart();
    }

    /** `clearCart()`: empties the module cart and the stored cart. */
    method ClearCart(store: Store)
      modifies this, store
      ensures cart == [] && store.cartSlot == Some([]) && store.GetCart() == []
      ensures store.wishlistSlot == old(store.wishlistSlot) && store.usersSlot == old(store.usersSlot)
      ensures store.sessionSlot == old(store.sessionSlot)
    {
      cart := [];
      store.SetCart(cart);
    }
  }
}
