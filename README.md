# iKart storefront core in Dafny

iKart is a small browser storefront. It keeps a shopping cart, a wishlist, a user list and the logged-in
user in the browser's `localStorage`, and it shows a fixed catalog of nine products. This project models
the logic behind the storefront, one Dafny module per JavaScript file:

- the add-to-cart rules: the stock-checked product cards, the stock-checked detail page, and the
  unchecked legacy copy in `script.js`, both on its product cards and on its own detail page;
- the quantity update and removal of cart lines;
- the wishlist toggle, removal, and the move from wishlist to cart;
- the cart and checkout totals: subtotal, item count, a flat shipping fee of 100, tax at 18% and the total;
- the listing pipeline: category and price filter, four sort orders, nine products per page, the
  "Showing a-b of n" line, the pagination controls, and the related-products selection;
- the user registry: signup, login and logout, and reading the current user;
- the route guard for protected pages and the choice of page renderer.

Storage is the class `Utils.Store`. It has one field per stored key (`cart`, `wishlist`, the user list and
the current user). Every handler is a method that reads the store, builds the new list and writes it back.
Each handler is proved against a pure function of the old lists; for example, `CardAdd` gives the change
that `handleAddToCartClick` makes. The properties the storefront relies on are lemmas about those
functions: one cart line per product id, no quantity above stock, idempotent removal, a double toggle that
restores the list, sorts that are stable permutations ordered by their key, and bounded page slices.
The copies of the handlers in the different files really differ. Where they agree, and where they do not,
is stated by lemmas that compare the functions of two files.

The catalog is a parameter `catalog: seq<Product>` of every operation. `Data.Products` is the shipped
catalog, and the lemmas in `Data` state facts about it. User-facing messages (`showCustomAlert` and
`alert`) are returned as a sequence of `Notice` values. Tax is the exact real `subtotal × 0.18`.

Files: `wrappers.dfy` (the `Option` type), `js_builtins.dfy` (`find`, `findIndex`, `filter`, `splice`,
`slice`, `split('x').pop()`, `parseInt`, `Math.ceil`), `js_sort.dfy` (`sort` with a comparator), `data.dfy`, `utils.dfy`,
`product_card_handlers.dfy`, `cart_page.dfy`, `checkout_page.dfy`, `wishlist_page.dfy`,
`product_detail_page.dfy`, `product_listing_page.dfy`, `main.dfy`, `script.dfy`. The legacy `script.js`
repeats the cart summary (`script.js:570-597`) and the checkout summary (`script.js:704-777`) with the same
arithmetic, so `CartPage.CalculateCartSummary` and `CheckoutPage.RenderCheckoutSummary` model both copies.

Where the intended behaviour and the code part ways, the model follows the code:

- `ListingPage.constructor` starts from an empty product list, as `productListingPage.js:18` does. The
  list is filled by the first filter call. `script.js:132` starts from the whole catalog instead.
- On the cart page the quantity update does nothing when the product has left the catalog
  (`cartPage.js:125-128`). The `script.js` copy still writes the requested quantity
  (`script.js:547-553`).
- The pathname guard takes the last `/` segment. The bare root `/` therefore gives the page name `""`.
  That name renders the home page and is not in the protected list, so the root is never redirected
  (`Main.RootPathIsUnguarded`).

## Model

| member | source | states |
|---|---|---|
| Data.ProductIdsDistinct | javascript/data.js:6-168 | No two catalog products share an id. |
| Data.ProductsStockedAndPriced | javascript/data.js:6-168 | Every catalog product has stock > 0 and price > 0. |
| Data.ProductIdsHaveNumericSuffix | javascript/data.js:6-168 | Every catalog id parses, after its last `-`, to a number, so the "newest" comparator never takes its fallback. |
| Data.DashedSuffix | javascript/productListingPage.js:184-185 | An id `head-digits` has the number `digits` as its suffix. |
| Data.DashedLastSegment | javascript/productListingPage.js:184 | `split('-').pop()` of `head-tail` is `tail` when `tail` has no dash. |
| Data.WatchAndTabletSharePrice | javascript/data.js:73-93 | watch-001 and tablet-001 both cost 59900; no other two products share a price. |
| Data.FeaturedIdsExist | javascript/data.js:6-168 | Every id the home page features is in the catalog. |
| Data.Find | javascript/productCardHandlers.js:32 | `products.find`: None exactly when no product has the id; otherwise the first product with it. |
| JsBuiltins.FindIndexById | javascript/cartPage.js:121 | `findIndex` by id: -1 exactly when no element has the id, otherwise the first index that has it. |
| JsBuiltins.Slice | javascript/productListingPage.js:69-71 | `slice(start, end)` with JavaScript's clamping of the bounds. |
| JsBuiltins.LastSegment | javascript/main.js:113 | `split(sep).pop()`: a suffix with no separator, preceded by a separator unless it is the whole text. |
| JsBuiltins.LastSegmentAfter | javascript/main.js:113 | The last segment is the text after the last separator. |
| JsBuiltins.ParseIntNeedsDigit | javascript/productListingPage.js:184-186 | `parseInt` of a text with no decimal digit is NaN; a hex number needs the `0` of its prefix. |
| JsBuiltins.ParseIntSkipsSpace | javascript/productListingPage.js:184-186 | Leading white space or a line terminator does not change the value. |
| JsBuiltins.ParseIntPlus | javascript/productListingPage.js:184-186 | A `+` before an unsigned, unblanked text keeps its value, NaN included. |
| JsBuiltins.ParseIntMinus | javascript/productListingPage.js:184-186 | A `-` before an unsigned, unblanked text negates its value, NaN included. |
| JsBuiltins.ParseIntDecimal | javascript/productListingPage.js:184-186 | A text that starts with a decimal digit and no `0x` prefix has the value of its leading decimal digit run. |
| JsBuiltins.ParseIntHex | javascript/productListingPage.js:184-186 | After `0x` or `0X` the longest hex digit run is the value, and NaN when it is empty. |
| JsBuiltins.ParseIntHexExamples | javascript/productListingPage.js:184-186 | "0x1A" reads as 26 and a bare "0x" as NaN. |
| JsBuiltins.ParseIntStopsAtLetter | javascript/productListingPage.js:184-186 | Reading stops at the first non-digit: "12ab" reads as 12. |
| JsBuiltins.CeilDiv | javascript/productListingPage.js:106 | `Math.ceil(n / d)` on naturals: the least k with k·d ≥ n. |
| JsBuiltins.WithoutIdIdempotent | javascript/cartPage.js:155 | Filtering out an id twice is filtering it once. |
| JsBuiltins.WithoutIdKeepsUnique | javascript/cartPage.js:155 | Filtering out an id keeps one element per id. |
| JsBuiltins.SpliceFirstIsWithout | javascript/cartPage.js:130-131 | With one element per id, splicing out the first match equals filtering the id out. |
| JsSort.SortPermutes | javascript/productListingPage.js:177 | `sort` with any comparator returns a permutation of its input. |
| JsSort.SortAscending | javascript/productListingPage.js:177 | When the comparator is the difference of a key on the list's elements, the result is in ascending key order. |
| JsSort.SortStable | javascript/productListingPage.js:177 | Under such a comparator, the elements sharing a key keep their relative order. |
| JsSort.SortOfAscending | javascript/productListingPage.js:177 | A list already in ascending key order is returned unchanged. |
| JsSort.SortIdempotent | javascript/productListingPage.js:177 | Sorting the result again by the same comparator changes nothing. |
| Utils.Store.GetCart | javascript/utils.js:7 | `getCart()` is the stored cart, or an empty list when nothing is stored. |
| Utils.Store.GetWishlist | javascript/utils.js:19 | `getWishlist()` is the stored wishlist, or an empty list. |
| Utils.Store.GetAllUsers | javascript/utils.js:90-99 | The stored users; an empty list when nothing is stored or the text does not parse. |
| Utils.Store.SetCart | javascript/utils.js:13 | Writes the cart and nothing else. |
| Utils.Store.SetWishlist | javascript/utils.js:25 | Writes the wishlist and nothing else. |
| Utils.Store.SaveAllUsers | javascript/utils.js:105-114 | Writes the user list and nothing else. |
| Utils.Store.constructor | javascript/utils.js:7-25 | A fresh store holds nothing. |
| Utils.EmptyStoreBadges | javascript/utils.js:30-43 | With nothing stored both badges read 0. |
| Utils.SumQuantitiesConcat | javascript/utils.js:36 | The cart badge (the sum of line quantities) adds up over concatenation. |
| Utils.SumQuantitiesAfterSet | javascript/utils.js:36 | Changing one line's quantity moves the cart badge by the difference. |
| Utils.QuantityOfAfterSet | javascript/productCardHandlers.js:46-54 | Setting the first line of an id changes that id's quantity and no other id's. |
| Utils.QuantityOfAfterAppend | javascript/productCardHandlers.js:55-57 | Appending a line for a new id gives it that quantity and changes no other id's. |
| Utils.FindUser | javascript/utils.js:124 | None exactly when no user has the identifier as email or username; otherwise the first such user. |
| Utils.SignupRefusals | javascript/utils.js:140-149 | Signup is refused for a taken email, and otherwise for a taken username, exactly when one exists. |
| Utils.SignupKeepsAccountsDistinct | javascript/utils.js:151-153 | A successful signup appends exactly the new user and keeps emails and usernames pairwise distinct. |
| Utils.SignupUser | javascript/utils.js:136-157 | Returns true iff registered; a refusal writes nothing and names the reason; success saves the list. |
| Utils.LoginMeaning | javascript/utils.js:165-185 | A login succeeds only for a listed user matching the identifier and password, never for an unknown identifier; and for the first user matching the identifier, it succeeds with that user exactly when the password is theirs, so a later account with the same identifier is never reached. |
| Utils.EmailShadowedByEarlierUsername | javascript/utils.js:124 | Example: an earlier user whose username is another user's email blocks that user's login by email. |
| Utils.LoginUser | javascript/utils.js:165-185 | Sets the current user iff the found user's password matches; otherwise the session is unchanged. |
| Utils.LogoutUser | javascript/utils.js:190-195 | Clears the current user and nothing else. |
| Utils.GetCurrentUser | javascript/utils.js:201-212 | The stored user when it parses; None when absent; corrupt text is removed and gives None. |
| ProductCardHandlers.CardAddRefusals | javascript/productCardHandlers.js:30-73 | The add is refused exactly for an unknown id, stock ≤ 0, or one unit more than stock, each with its own message. |
| ProductCardHandlers.CardAddIncrements | javascript/productCardHandlers.js:46-57 | A successful add raises the id's quantity by exactly 1 and leaves every other id's quantity alone. |
| ProductCardHandlers.CardAddBadge | javascript/productCardHandlers.js:46-57 | A successful add raises the cart badge by exactly 1. |
| ProductCardHandlers.CardAddKeepsOneLinePerId | javascript/productCardHandlers.js:46-57 | The add keeps one line per product id. |
| ProductCardHandlers.CardAddKeepsWithinStock | javascript/productCardHandlers.js:40-57 | The add keeps every quantity within its product's stock. |
| ProductCardHandlers.HandleAddToCartClick | javascript/productCardHandlers.js:30-73 | Writes the cart only on a successful add; on the wishlist page the id's entries leave the wishlist only then. |
| ProductCardHandlers.CardToggleFlips | javascript/productCardHandlers.js:79-113 | For a known id the toggle flips that id's membership and no other's; an unknown id is a silent no-op. |
| ProductCardHandlers.CardToggleTwice | javascript/productCardHandlers.js:89-99 | Toggling an absent id twice restores the wishlist exactly. |
| ProductCardHandlers.CardToggleKeepsUnique | javascript/productCardHandlers.js:89-101 | The toggle keeps one wishlist entry per id. |
| ProductCardHandlers.HandleToggleWishlistClick | javascript/productCardHandlers.js:79-113 | Writes the toggled wishlist for a known id and nothing for an unknown one. |
| CartPage.UpdateQuantityNoOp | javascript/cartPage.js:121-128 | The update does nothing and says nothing exactly when there is no line or the product is not in the catalog. |
| CartPage.UpdateQuantityRemovesLine | javascript/cartPage.js:130-131 | A request ≤ 0 removes exactly the first line of the id and keeps the rest in order. |
| CartPage.UpdateQuantityEffect | javascript/cartPage.js:130-138 | The id's quantity becomes min(request, stock), or the line goes when the request ≤ 0; other ids are untouched. |
| CartPage.UpdateQuantityKeepsOneLinePerId | javascript/cartPage.js:119-146 | The update keeps one line per id. |
| CartPage.UpdateQuantityKeepsWithinStock | javascript/cartPage.js:134-138 | The update keeps every quantity within stock. |
| CartPage.UpdateQuantityKeepsPositive | javascript/cartPage.js:130-138 | With stock > 0, every remaining quantity stays ≥ 1. |
| CartPage.UpdateQuantityZeroStock | javascript/cartPage.js:134-136 | Example: a product with stock 0 is clamped to a kept line of quantity 0. |
| CartPage.UpdateCartItemQuantity | javascript/cartPage.js:119-146 | Writes the cart only when the update applies, with its message. |
| CartPage.RemoveLinesMeaning | javascript/cartPage.js:155 | Removal drops every line of the id, keeps the others in order, and is idempotent; an absent id changes nothing. |
| CartPage.RemoveLinesBadge | javascript/cartPage.js:155 | With one line per id, removal takes exactly that id's quantity off the cart badge. |
| CartPage.SumQuantitiesSplice | javascript/cartPage.js:130-131 | Splicing out a line takes its quantity off the badge. |
| CartPage.RemoveLinesKeepsInvariants | javascript/cartPage.js:155 | Removal keeps one line per id and every quantity within stock. |
| CartPage.RemoveCartItem | javascript/cartPage.js:152-162 | Always writes the filtered cart; the message needs the product to be in the catalog. |
| CartPage.Charges | javascript/cartPage.js:189-192 | Shipping is 100 iff subtotal > 0, tax is 0.18 × subtotal, and the total is their sum. |
| CartPage.EmptyCartSummary | javascript/cartPage.js:29-39 | An empty cart gives all zeros. |
| CartPage.PositiveSubtotalTotal | javascript/cartPage.js:189-192 | A positive subtotal s totals 1.18·s + 100. |
| CartPage.SubtotalConcat | javascript/cartPage.js:181-187 | The subtotal adds up over concatenation. |
| CartPage.SubtotalSkipsStale | javascript/cartPage.js:181-187 | Lines whose product is not in the catalog add nothing to the subtotal. |
| CartPage.SubtotalNonNegative | javascript/cartPage.js:181-187 | Non-negative quantities and prices give a non-negative subtotal. |
| CartPage.CalculateCartSummary | javascript/cartPage.js:168-198 | The loop's summary is the charges on the sum of price × quantity over found lines. |
| CartPage.RenderCart | javascript/cartPage.js:29-47 | The title counts the sum of quantities; checkout is enabled iff the cart is non-empty. |
| CartPage.ClampedCartTotals | javascript/cartPage.js:134-192 | Example: add one unit of a product of stock 10, ask for 15, get 10, with totals 1000000 + 100 + 180000. |
| CheckoutPage.FoundQuantityAllFound | javascript/checkoutPage.js:47-53 | When every line's product is found, the item count is the cart badge. |
| CheckoutPage.FoundQuantityAtMostBadge | javascript/checkoutPage.js:47-53 | With non-negative quantities the item count lies between 0 and the cart badge. |
| CheckoutPage.CheckoutSkipsStale | javascript/checkoutPage.js:66-72 | Lines of a product not in the catalog change neither the item count nor the subtotal. |
| CheckoutPage.RenderCheckoutSummary | javascript/checkoutPage.js:25-86 | Item count over found lines; the same charges as the cart page; submit enabled iff non-empty. |
| WishlistPage.WishlistCards | javascript/wishlistPage.js:31-56 | One card per wishlist entry, in order. |
| WishlistPage.AvailableInStorefront | javascript/wishlistPage.js:33 | For the shipped catalog, "stock available" is exactly "in the catalog". |
| WishlistPage.OfferedAddOnlyMeetsStockLimit | javascript/wishlistPage.js:44-47 | An offered Add to Cart can fail only on the stock limit; a withheld one would be refused as unknown or out of stock. |
| WishlistPage.RemoveItemsMeaning | javascript/wishlistPage.js:76 | Removal drops every entry of the id, keeps the others in order, and is idempotent; an absent id changes nothing. |
| WishlistPage.HandleRemoveFromWishlist | javascript/wishlistPage.js:74-81 | Writes the filtered wishlist and says so. |
| WishlistPage.ToggleThenRemoveIsRemove | javascript/wishlistPage.js:59-67 | Toggle followed by removal equals a single removal. |
| WishlistPage.ClickRemoveButton | javascript/wishlistPage.js:59-67 | Both listeners together leave the filtered wishlist. |
| ProductDetailPage.RelatedCandidates | javascript/productDetailPage.js:143 | The candidates are exactly the catalog products of the same category with another id. |
| ProductDetailPage.RelatedCandidatesSubsequence | javascript/productDetailPage.js:143 | The candidates keep catalog order. |
| ProductDetailPage.RelatedMeaning | javascript/productDetailPage.js:143 | At most 4 related products: the first candidates, in catalog order. |
| ProductDetailPage.RenderProductDetail | javascript/productDetailPage.js:9-18 | An unknown id renders nothing; a known one renders that product and its related products. |
| ProductDetailPage.DetailAddRefusals | javascript/productDetailPage.js:41-64 | Refused exactly when the line is at stock, or when absent and stock ≤ 0; success adds one unit to the id and the badge. |
| ProductDetailPage.Pairs | javascript/productDetailPage.js:45-61 | The (id, quantity) pairs of a cart, in order. |
| ProductDetailPage.DetailAddAgreesWithCardAdd | javascript/productDetailPage.js:45-61 | For a catalog product and quantities ≥ 0 it accepts exactly when the product card does, with the same pairs. |
| ProductDetailPage.DetailAddDivergesOnNegativeQuantity | javascript/productDetailPage.js:46 | Example: a line of quantity -1 with stock 0 is incremented here and refused by the product card. |
| ProductDetailPage.DetailAddKeepsInvariants | javascript/productDetailPage.js:43-61 | The add keeps one line per id and every quantity within stock. |
| ProductDetailPage.HandleDetailAddToCart | javascript/productDetailPage.js:41-64 | Writes the cart only on success, with its message. |
| ProductDetailPage.DetailToggleTwice | javascript/productDetailPage.js:72-81 | Toggling an absent product twice restores the wishlist. |
| ProductDetailPage.DetailToggleAgreesWithCardToggle | javascript/productDetailPage.js:72-81 | On a wishlist with one entry per id, it leaves the same ids as the product-card toggle. |
| ProductDetailPage.HandleDetailToggleWishlist | javascript/productDetailPage.js:70-89 | Always writes the toggled wishlist. |
| ProductListingPage.FilterProductsMeaning | javascript/productListingPage.js:141-166 | Keeps exactly the products of a selected category (any when none) within the valid bounds, in catalog order. |
| ProductListingPage.CompareIsKeyDifference | javascript/productListingPage.js:177-193 | Each comparator is a key difference, except "newest" on an id with no number. |
| ProductListingPage.KeyBasedComparator | javascript/productListingPage.js:177-193 | On a list where every comparison is a key difference, the arrow function handed to `sort` is that key's comparator. |
| ProductListingPage.SortPermutes | javascript/productListingPage.js:174-196 | Every sort is a permutation of its input. |
| ProductListingPage.SortSorted | javascript/productListingPage.js:174-196 | Every sort orders by its key. |
| ProductListingPage.SortOrders | javascript/productListingPage.js:177-193 | Price ascending, price descending, reviews descending, id number descending, each as a permutation. |
| ProductListingPage.SortStable | javascript/productListingPage.js:174-196 | Products with equal keys keep their relative order. |
| ProductListingPage.SortIdempotent | javascript/productListingPage.js:174-196 | Sorting again by the same order changes nothing. |
| ProductListingPage.StorefrontKeyBased | javascript/productListingPage.js:184-189 | On catalog products every comparator is a key difference. |
| ProductListingPage.WatchBeforeTablet | javascript/productListingPage.js:178-180 | The two products priced 59900 keep catalog order, watch-001 then tablet-001, under both price sorts. |
| ProductListingPage.DescendingPriceClass | javascript/productListingPage.js:178-180 | The products at price k under the descending key (-k) are exactly, in order, those at price k under the ascending key. |
| ProductListingPage.PageSliceMeaning | javascript/productListingPage.js:69-71 | Page p holds the products from (p-1)·9 on, at most 9, and none past the end. |
| ProductListingPage.CountDisplayMatchesSlice | javascript/productListingPage.js:90-96 | On a valid page the line reads 0-0 for no products, else starts at (p-1)·9+1 and spans the page shown. |
| ProductListingPage.PageItems | javascript/productListingPage.js:106-134 | No controls for at most one page, else previous, one per page and next. |
| ProductListingPage.NumberItems | javascript/productListingPage.js:130-132 | Item k targets page k and is active exactly on the current page. |
| ProductListingPage.ClickStaysInRange | javascript/productListingPage.js:116-134 | A click keeps the page within 1..total pages and changes it exactly on an enabled, inactive item. |
| ProductListingPage.RenderPagination | javascript/productListingPage.js:102-135 | The loop builds exactly the page items. |
| ProductListingPage.ListingPage.constructor | javascript/productListingPage.js:16-18 | Page 1, an empty list, sort by popularity. |
| ProductListingPage.ListingPage.RenderProducts | javascript/productListingPage.js:62-84 | Shows the page slice, the count line and the pagination, and changes nothing. |
| ProductListingPage.ListingPage.ApplySorting | javascript/productListingPage.js:174-196 | Sorts the list by the current order and keeps the page valid. |
| ProductListingPage.ListingPage.FilterAndRenderProducts | javascript/productListingPage.js:141-167 | Filters the catalog, resets to page 1, and sorts. |
| ProductListingPage.ListingPage.SelectSort | javascript/productListingPage.js:211-220 | Sets the order and sorts, keeping the page valid. |
| ProductListingPage.ListingPage.ClickPageItem | javascript/productListingPage.js:116-123 | Moves to the clicked page only on an enabled, inactive item. |
| Main.PageNameMeaning | javascript/main.js:113 | The page name is the last `/` segment of the pathname. |
| Main.RedirectMeaning | javascript/main.js:117-124 | A redirect happens iff the page is protected and nobody is logged in; login and signup never redirect. |
| Main.DispatchMeaning | javascript/main.js:131-149 | The home renderer runs exactly for "" and index.html; every other page with a renderer is protected; exactly the first six protected pages have renderers. |
| Main.RootPathIsUnguarded | javascript/main.js:113-131 | "/" renders the home page without a redirect, while "/index.html" is redirected. |
| Main.OnPageLoad | javascript/main.js:112-149 | Either redirects, which stops initialisation, or runs the page's renderer; corrupt session text is cleared. |
| Main.MainModule.constructor | javascript/main.js:13 | The module cart starts as the stored cart. |
| Main.MainModule.ClearCart | javascript/main.js:97-99 | Both the module cart and the stored cart become empty. |
| Script.ScriptAddMeaning | javascript/script.js:32-50 | An unknown id changes nothing; a known one always gains one unit, appended at the end when new; other ids are untouched. |
| Script.ScriptAddExceedsStock | javascript/script.js:40-41 | Example: a line at its stock grows past it, where the product card refuses. |
| Script.ScriptAddAgreesWhenAccepted | javascript/script.js:36-46 | Wherever the stock-checked add accepts, this copy leaves the same pairs. |
| Script.ScriptAddToCartClick | javascript/script.js:32-50 | Writes the cart for a known id only. |
| Script.ScriptDetailAddIsScriptAdd | javascript/script.js:319-333 | The detail page's add button is the card's unchecked add on the shown product: one more unit whatever the stock, no other id moved. |
| Script.ScriptDetailAddClick | javascript/script.js:319-333 | Always writes the cart with that add, and no other slot. |
| Script.ScriptToggleIsDetailToggle | javascript/script.js:55-79 | For a known product it is the detail-page toggle, so a double toggle restores the list; unknown ids do nothing. |
| Script.ScriptToggleWishlistClick | javascript/script.js:55-79 | Writes the toggled wishlist for a known id only. |
| Script.ScriptUpdateAgreesWhenFound | javascript/script.js:540-560 | For a catalog product the cart page and this copy leave the same cart. |
| Script.ScriptUpdateWhenMissing | javascript/script.js:544-553 | For a product missing from the catalog the cart page does nothing, while this copy removes the line or writes the request as is. |
| Script.ScriptUpdateCartItemQuantity | javascript/script.js:540-560 | Writes the cart and returns the messages exactly as the legacy update function gives them. |
| Script.ScriptRemoveCartItem | javascript/script.js:562-568 | Writes the filtered cart, with no message. |
| Script.ScriptRenderCart | javascript/script.js:456-471 | The title counts lines, not units; the summary is the cart page's. |
| Script.LineCountVersusUnits | javascript/script.js:471 | With quantities ≥ 1, the line count is at most the units, and equal iff every line holds one unit. |
| Script.LegacyCountDisplayAgrees | javascript/script.js:193-199 | The legacy count line agrees on non-empty lists and reads "1-0 of 0" on an empty one. |
| Script.LegacyListing.constructor | javascript/script.js:130-132 | Page 1, the whole catalog, sort by popularity. |
| Script.LegacyListing.RenderProducts | javascript/script.js:170-191 | Shows the page slice, the legacy count line and the pagination. |
| Script.LegacyListing.ApplySorting | javascript/script.js:267-289 | Sorts by the same comparators as the listing page. |
| Script.LegacyListing.FilterAndRenderProducts | javascript/script.js:234-260 | The same filter and sort, but the page is left where it was. |
| Script.LegacyListing.ClickPageItem | javascript/script.js:215-220 | Moves to the clicked page only on an enabled, inactive item. |
| Script.LegacyFilterCanStrandPage | javascript/script.js:257-259 | When the filter keeps at most one page of products while page 2 is current, page 2 is past the last page, shows nothing, and its count line reads "10-n of n". Every listener resets the page to 1 before it filters, so this is a property of the function alone. |

## Left out

- Rendering: HTML strings, `innerHTML`, class toggling, element lookups, scrolling and star ratings. Only
  the decisions behind them are modelled: the counts, which cards offer Add to Cart, and which page items
  are active or disabled.
- The message texts and `showCustomAlert`'s timers; messages are `Notice` values.
- JSON (de)serialisation and storage exceptions. The exceptions are kept only where the code catches
  them: an unreadable user list reads as empty, and an unreadable current user is cleared. Saving the
  users cannot fail here.
- Currency formatting (`toLocaleString`, `toFixed`) and float rounding. Prices and quantities are integers
  and tax is the exact real 18/100 of the subtotal.
- `NaN` from the quantity field's `parseInt` (`cartPage.js:97`) and from `parseFloat`. A requested quantity is an integer. A price bound is
  `Option<real>`, where None stands for an input that does not parse.
- JsBuiltins.ParseInt: models white space, one sign, the `0x` prefix and the digit run, but not the radix argument. The source never passes one. It also does not model the rounding of digit runs above 2^53 or the sign of `-0`, which reads as 0; no catalog id comes near either.
- Product fields that no modelled decision reads: rating, discount, description, specifications, detail
  images, and the `img` alias of `image`.
- Object aliasing: JavaScript changes cart line objects in place, and the model returns new sequences.
  No two stored lists share objects, so nothing observable is lost.
- ProductListingPage.SortSorted: stated only when every product has a numeric id for the "newest" order.
  With a number-less id the comparator is not a consistent order and `sort` is implementation-defined; the
  shipped catalog never hits this (`Data.ProductIdsHaveNumericSuffix`).
- The event-listener plumbing, apart from the wishlist page's toggle-then-remove pair.
- The repeated `DOMContentLoaded` handlers in `script.js` (lines 778-871). They reset the page to 1 before
  they call the filter.
- The rest of `script.js`'s own detail page and its checkout cart list. Its wishlist toggle and related list repeat
  `DetailToggle` and `Related`, and the checkout list only renders, under a title that counts lines. Its add
  button is modelled (`Script.ScriptDetailAdd`).
- `updateAuthUI` and `updateAllCartDisplays` in `main.js`, which only render.
- javascript/auth.js: form handling around the `utils.js` functions, which are modelled.
- javascript/homePage.js: rendering only. Its featured ids are checked by `Data.FeaturedIdsExist`.
- Concurrency between tabs, and password security.
