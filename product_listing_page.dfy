/**
 * javascript/productListingPage.js: category and price filter, the four sort orders, nine-per-page pagination,
 * the "Showing a-b of n" line, and the page state the listing keeps between clicks.
 */
module ProductListingPage {
  import opened Wrappers
  import opened JsBuiltins
  import opened Data
  import JsSort

  // ---------------------------------------------------------------- filter

  /** `selectedCategories.includes(p.category)` when any box is checked; no restriction otherwise. */
  function ByCategory(s: seq<Product>, selected: seq<string>): seq<Product>
  {
    if |selected| > 0 then Filter(s, (p: Product) => p.category in selected) else s
  }

  /** A bound parsed with `parseFloat` (`None` for NaN) applies when it is a number and not negative. */
  predicate Applies(bound: Option<real>)
  {
    bound.Some? && bound.value >= 0.0
  }

  function AtLeast(s: seq<Product>, minPrice: Option<real>): seq<Product>
  {
    if Applies(minPrice) then Filter(s, (p: Product) => p.price as real >= minPrice.value) else s
  }

  function AtMost(s: seq<Product>, maxPrice: Option<real>): seq<Product>
  {
    if Applies(maxPrice) then Filter(s, (p: Product) => p.price as real <= maxPrice.value) else s
  }

  /** The three filter stages of `filterAndRenderProducts`, in their order. */
  function FilterProducts(catalog: seq<Product>, selected: seq<string>, minPrice: Option<real>, maxPrice: Option<real>): seq<Product>
  {
    AtMost(AtLeast(ByCategory(catalog, selected), minPrice), maxPrice)
  }

  /** A product passes exactly when its category is selected (or none is), and its price is within every bound
      that applies, both bounds inclusive. */
  predicate Passes(p: Product, selected: seq<string>, minPrice: Option<real>, maxPrice: Option<real>)
  {
    (|selected| == 0 || p.category in selected) &&
    (Applies(minPrice) ==> p.price as real >= minPrice.value) &&
    (Applies(maxPrice) ==> p.price as real <= maxPrice.value)
  }

  lemma FilterProductsMeaning(catalog: seq<Product>, selected: seq<string>, minPrice: Option<real>, maxPrice: Option<real>)
    ensures forall p :: p in FilterProducts(catalog, selected, minPrice, maxPrice) <==>
                        p in catalog && Passes(p, selected, minPrice, maxPrice)
    ensures IsSubsequence(FilterProducts(catalog, selected, minPrice, maxPrice), catalog)
  {
    var a := ByCategory(catalog, selected);
    var b := AtLeast(a, minPrice);
    var c := AtMost(b, maxPrice);
    if |selected| > 0 { FilterIsSubsequence(catalog, (p: Product) => p.category in selected); }
    else { SubsequenceReflexive(catalog); }
    if Applies(minPrice) { FilterIsSubsequence(a, (p: Product) => p.price as real >= minPrice.value); }
    else { SubsequenceReflexive(a); }
    if Applies(maxPrice) { FilterIsSubsequence(b, (p: Product) => p.price as real <= maxPrice.value); }
    else { SubsequenceReflexive(b); }
    SubsequenceTransitive(b, a, catalog);
    SubsequenceTransitive(c, b, catalog);
  }

  // ---------------------------------------------------------------- sort

  datatype SortOrder = PriceAsc | PriceDesc | Newest | Popularity

  /** `currentSortBy`: anything but the three named orders falls back to popularity. */
  function ParseSortBy(sortBy: string): SortOrder
  {
    if sortBy == "price-asc" then PriceAsc
    else if sortBy == "price-desc" then PriceDesc
    else if sortBy == "newest" then Newest
    else Popularity
  }

  /** The comparator `applySorting` passes to `sort` for each order. */
  function Compare(order: SortOrder, a: Product, b: Product): int
  {
    match order
    case PriceAsc => a.price - b.price
    case PriceDesc => b.price - a.price
    case Newest =>
      var an, bn := IdSuffix(a.id), IdSuffix(b.id);
      if an.Some? && bn.Some? then bn.value - an.value else 0
    case Popularity => b.reviews - a.reviews
  }

  /** The key each comparator orders by, ascending: price, minus price, minus the id's number, minus reviews. */
  function Key(order: SortOrder, p: Product): int
  {
    match order
    case PriceAsc => p.price
    case PriceDesc => -p.price
    case Newest => if IdSuffix(p.id).Some? then -IdSuffix(p.id).value else 0
    case Popularity => -p.reviews
  }

  /** The comparator is a key difference, except for "newest" on an id without a trailing number. */
  predicate Comparable(order: SortOrder, p: Product)
  {
    order != Newest || IdSuffix(p.id).Some?
  }

  predicate KeyBased(order: SortOrder, s: seq<Product>)
  {
    forall p :: p in s ==> Comparable(order, p)
  }

  lemma CompareIsKeyDifference(order: SortOrder, a: Product, b: Product)
    requires Comparable(order, a) && Comparable(order, b)
    ensures Compare(order, a, b) == Key(order, a) - Key(order, b)
  {
  }

  /** The arrow function `applySorting` hands to `sort`. */
  function Comparator(order: SortOrder): (Product, Product) -> int
  {
    (a: Product, b: Product) => Compare(order, a, b)
  }

  /** The key of each order, as a function value. */
  function KeyOf(order: SortOrder): Product -> int
  {
    (p: Product) => Key(order, p)
  }

  /** `sorted.sort(comparator)` on the copy `[...filteredAndSortedProducts]`. */
  function SortProducts(order: SortOrder, s: seq<Product>): seq<Product>
  {
    JsSort.Sort(Comparator(order), s)
  }

  ghost predicate SortedBy(order: SortOrder, s: seq<Product>)
  {
    JsSort.Ascending(KeyOf(order), s)
  }

  /** The elements of `s` with key `k`, in order. */
  function KeyClass(order: SortOrder, s: seq<Product>, k: int): seq<Product>
  {
    JsSort.ClassOf(KeyOf(order), s, k)
  }

  /** On a key-based list the comparator is the key difference. */
  lemma KeyBasedComparator(order: SortOrder, s: seq<Product>)
    requires KeyBased(order, s)
    ensures JsSort.KeyComparator(Comparator(order), KeyOf(order), s)
  {
    forall a, b | a in s && b in s ensures Comparator(order)(a, b) == KeyOf(order)(a) - KeyOf(order)(b) {
      CompareIsKeyDifference(order, a, b);
    }
  }

  /** Membership is all that KeyBased depends on, so a permutation keeps it. */
  lemma KeyBasedPermutation(order: SortOrder, s: seq<Product>, t: seq<Product>)
    requires multiset(s) == multiset(t) && KeyBased(order, s)
    ensures KeyBased(order, t)
  {
    forall p | p in t ensures Comparable(order, p) {
      assert p in multiset(t);
      assert p in s;
    }
  }

  /** Every sort returns a permutation of its input. */
  lemma SortPermutes(order: SortOrder, s: seq<Product>)
    ensures multiset(SortProducts(order, s)) == multiset(s)
  {
    JsSort.SortPermutes(Comparator(order), s);
  }

  /** When the comparator is a key difference, the sort orders by that key. */
  lemma SortSorted(order: SortOrder, s: seq<Product>)
    requires KeyBased(order, s)
    ensures SortedBy(order, SortProducts(order, s))
  {
    KeyBasedComparator(order, s);
    JsSort.SortAscending(Comparator(order), KeyOf(order), s);
  }

  /** What each order promises, stated on the product fields: a permutation, in ascending price,
      descending price, descending id number or descending reviews. */
  lemma SortOrders(order: SortOrder, s: seq<Product>)
    requires KeyBased(order, s)
    ensures multiset(SortProducts(order, s)) == multiset(s)
    ensures order == PriceAsc ==> var r := SortProducts(order, s);
      forall i, j :: 0 <= i < j < |r| ==> r[i].price <= r[j].price
    ensures order == PriceDesc ==> var r := SortProducts(order, s);
      forall i, j :: 0 <= i < j < |r| ==> r[i].price >= r[j].price
    ensures order == Popularity ==> var r := SortProducts(order, s);
      forall i, j :: 0 <= i < j < |r| ==> r[i].reviews >= r[j].reviews
    ensures order == Newest ==> var r := SortProducts(order, s);
      forall i, j :: 0 <= i < j < |r| ==> NewerOrSame(r[i], r[j])
  {
    SortPermutes(order, s);
    SortSorted(order, s);
    var r := SortProducts(order, s);
    KeyBasedPermutation(order, s, r);
    forall i, j | 0 <= i < j < |r| ensures Key(order, r[i]) <= Key(order, r[j]) {
      assert KeyOf(order)(r[i]) <= KeyOf(order)(r[j]);
    }
    if order == Newest {
      forall i, j | 0 <= i < j < |r| ensures NewerOrSame(r[i], r[j]) {
        assert r[i] in r && r[j] in r;
        assert Key(order, r[i]) <= Key(order, r[j]);
      }
    }
  }

  /** Both ids carry a number, and the first one's is not smaller. */
  predicate NewerOrSame(a: Product, b: Product)
  {
    IdSuffix(a.id).Some? && IdSuffix(b.id).Some? && IdSuffix(a.id).value >= IdSuffix(b.id).value
  }

  /** The sort is stable: the products sharing a key keep their relative order. */
  lemma SortStable(order: SortOrder, s: seq<Product>, k: int)
    requires KeyBased(order, s)
    ensures KeyClass(order, SortProducts(order, s), k) == KeyClass(order, s, k)
  {
    KeyBasedComparator(order, s);
    JsSort.SortStable(Comparator(order), KeyOf(order), s, k);
  }

  /** Sorting an already sorted list changes nothing, so re-applying the same order is idempotent. */
  lemma SortIdempotent(order: SortOrder, s: seq<Product>)
    requires KeyBased(order, s)
    ensures SortProducts(order, SortProducts(order, s)) == SortProducts(order, s)
  {
    KeyBasedComparator(order, s);
    JsSort.SortIdempotent(Comparator(order), KeyOf(order), s);
  }

  /** Every storefront product has an id number, so every order is a key order on any listing of them. */
  lemma StorefrontKeyBased(order: SortOrder, s: seq<Product>)
    requires forall p :: p in s ==> p in Products
    ensures KeyBased(order, s)
  {
    ProductIdsHaveNumericSuffix();
    forall p | p in s ensures Comparable(order, p) {
      var i :| 0 <= i < |Products| && Products[i] == p;
    }
  }

  /** The watch and the tablet share the price 59900; both price sorts keep the watch, listed first, ahead. */
  lemma WatchBeforeTablet()
    ensures KeyClass(PriceAsc, SortProducts(PriceAsc, Products), 59900) == [Products[3], Products[4]]
    ensures KeyClass(PriceDesc, SortProducts(PriceDesc, Products), -59900) == [Products[3], Products[4]]
  {
    StorefrontKeyBased(PriceAsc, Products);
    StorefrontKeyBased(PriceDesc, Products);
    SortStable(PriceAsc, Products, 59900);
    SortStable(PriceDesc, Products, -59900);
    SharedPriceClass(PriceAsc, 59900);
    SharedPriceClass(PriceDesc, -59900);
  }

  /** Under either price order, the storefront products whose key is that of 59900 are the watch and the tablet. */
  lemma SharedPriceClass(order: SortOrder, k: int)
    requires (order == PriceAsc && k == 59900) || (order == PriceDesc && k == -59900)
    ensures KeyClass(order, Products, k) == [Products[3], Products[4]]
  {
    AscendingPriceClass();
    if order == PriceDesc {
      DescendingPriceClass(Products, 59900);
    }
  }

  lemma AscendingPriceClass()
    ensures KeyClass(PriceAsc, Products, 59900) == [Products[3], Products[4]]
  {
    assert Products[..0] == [] && Products[..9] == Products;
    KeyClassStep(PriceAsc, Products, 0, 59900);
    KeyClassStep(PriceAsc, Products, 1, 59900);
    KeyClassStep(PriceAsc, Products, 2, 59900);
    KeyClassStep(PriceAsc, Products, 3, 59900);
    KeyClassStep(PriceAsc, Products, 4, 59900);
    KeyClassStep(PriceAsc, Products, 5, 59900);
    KeyClassStep(PriceAsc, Products, 6, 59900);
    KeyClassStep(PriceAsc, Products, 7, 59900);
    KeyClassStep(PriceAsc, Products, 8, 59900);
  }

  /** Descending price groups exactly the products ascending price groups, under the negated key. */
  lemma {:induction false} DescendingPriceClass(s: seq<Product>, k: int)
    ensures KeyClass(PriceDesc, s, -k) == KeyClass(PriceAsc, s, k)
  {
    if |s| > 0 {
      DescendingPriceClass(s[..|s| - 1], k);
    }
  }

  lemma KeyClassStep(order: SortOrder, s: seq<Product>, n: nat, k: int)
    requires n < |s|
    ensures KeyClass(order, s[..n + 1], k) == KeyClass(order, s[..n], k) + (if Key(order, s[n]) == k then [s[n]] else [])
  {
    assert s[..n + 1][..n] == s[..n];
  }

  // ---------------------------------------------------------------- pages

  const ProductsPerPage: nat := 9

  /** `productsToRender.slice(start, start + productsPerPage)` with `start = (currentPage - 1) * productsPerPage`. */
  function PageSlice(s: seq<Product>, page: int): seq<Product>
  {
    var start := (page - 1) * ProductsPerPage;
    Slice(s, start, start + ProductsPerPage)
  }

  /** A page holds at most nine products: the ones at `(p-1)*9 ..`, none once the start is past the end. */
  lemma PageSliceMeaning(s: seq<Product>, page: int)
    requires page >= 1
    ensures var r, start := PageSlice(s, page), (page - 1) * ProductsPerPage;
      |r| <= ProductsPerPage &&
      (forall k :: 0 <= k < |r| ==> r[k] == s[start + k]) &&
      (start >= |s| ==> r == []) &&
      (start < |s| ==> |r| == if |s| - start < ProductsPerPage then |s| - start else ProductsPerPage)
  {
  }

  /** `Math.ceil(total / productsPerPage)`. */
  function TotalPages(total: nat): nat
  {
    CeilDiv(total, ProductsPerPage)
  }

  /** The numbers of "Showing a-b of n Products". */
  datatype CountDisplay = CountDisplay(first: int, last: int, total: nat)

  /** `updateProductCountDisplay(total)`. */
  function ProductCountDisplay(page: int, total: nat): CountDisplay
  {
    var start := (page - 1) * ProductsPerPage + 1;
    var end := if start + ProductsPerPage - 1 < total then start + ProductsPerPage - 1 else total;
    CountDisplay(if total > 0 then start else 0, end, total)
  }

  /** On any page that exists, the display names the 1-based positions of exactly the products on that page;
      an empty listing shows "0-0 of 0". */
  lemma CountDisplayMatchesSlice(s: seq<Product>, page: int)
    requires 1 <= page && (page == 1 || page <= TotalPages(|s|))
    ensures var d, r := ProductCountDisplay(page, |s|), PageSlice(s, page);
      d.total == |s| &&
      (|s| == 0 ==> d == CountDisplay(0, 0, 0)) &&
      (|s| > 0 ==> d.first == (page - 1) * ProductsPerPage + 1 && d.last - d.first + 1 == |r| && |r| > 0)
  {
    if |s| > 0 {
      assert (page - 1) * ProductsPerPage < |s| by {
        assert TotalPages(|s|) >= 1;
        if page > 1 {
          assert (page - 1) * ProductsPerPage < |s| by {
            var t := TotalPages(|s|);
            assert (t - 1) * ProductsPerPage < |s|;
            assert (page - 1) * ProductsPerPage <= (t - 1) * ProductsPerPage;
          }
        }
      }
    }
  }

  /** `createPageItem(page, text, isActive, isDisabled)`: where a click leads, and whether it is ignored. */
  datatype PageItem = PageItem(target: int, kind: PageKind, active: bool, disabled: bool)
  datatype PageKind = Previous | Number(n: nat) | Next

  /** The controls `renderPagination` builds: none for a single page, otherwise previous, every page number,
      and next. */
  function PageItems(current: int, totalPages: nat): (items: seq<PageItem>)
    ensures totalPages <= 1 ==> items == []
    ensures totalPages > 1 ==> |items| == totalPages + 2
  {
    if totalPages <= 1 then []
    else [PageItem(current - 1, Previous, false, current == 1)]
         + NumberItems(current, totalPages)
         + [PageItem(current + 1, Next, false, current == totalPages)]
  }

  /** Page numbers 1..n, the current one active. */
  function NumberItems(current: int, n: nat): (items: seq<PageItem>)
    ensures |items| == n
    ensures forall k :: 0 <= k < n ==> items[k] == PageItem(k + 1, Number(k + 1), k + 1 == current, false)
  {
    if n == 0 then [] else NumberItems(current, n - 1) + [PageItem(n, Number(n), n == current, false)]
  }

  /** What a click on an item does to `currentPage`. */
  function Click(current: int, item: PageItem): int
  {
    if !item.disabled && !item.active then item.target else current
  }

  /** From a page that exists, every control leads to a page that exists, and a control changes the page
      exactly when it is enabled and not the current one. */
  lemma ClickStaysInRange(current: int, totalPages: nat, item: PageItem)
    requires 1 <= current <= totalPages
    requires item in PageItems(current, totalPages)
    ensures 1 <= Click(current, item) <= totalPages
    ensures Click(current, item) != current <==> !item.disabled && !item.active
  {
    var items := PageItems(current, totalPages);
    var k :| 0 <= k < |items| && items[k] == item;
    if 0 < k < |items| - 1 {
      assert item == NumberItems(current, totalPages)[k - 1];
    }
  }

  /** `renderPagination(total)`: the loop over the page numbers between the two arrows. */
  method RenderPagination(current: int, total: nat) returns (items: seq<PageItem>)
    ensures items == PageItems(current, TotalPages(total))
  {
    var totalPages := TotalPages(total);
    if totalPages <= 1 {
      return [];
    }
    items := [PageItem(current - 1, Previous, false, current == 1)];
    var i := 1;
    while i <= totalPages
      invariant 1 <= i <= totalPages + 1
      invariant items == [PageItem(current - 1, Previous, false, current == 1)] + NumberItems(current, i - 1)
    {
      items := items + [PageItem(i, Number(i), i == current, false)];
      i := i + 1;
    }
    items := items + [PageItem(current + 1, Next, false, current == totalPages)];
  }

  // ---------------------------------------------------------------- the page state

  /** What `renderProducts` shows: the page's products, the count line and the pagination controls. */
  datatype ListingView = ListingView(shown: seq<Product>, count: CountDisplay, items: seq<PageItem>)

  /** The module state of the listing page: `currentPage`, `filteredAndSortedProducts` and `currentSortBy`. */
  class ListingPage {
    const catalog: seq<Product>
    var currentPage: int
    var filteredAndSorted: seq<Product>
    var currentSortBy: string

    /** The current page always exists (page 1 always does). */
    ghost predicate Valid()
      reads this
    {
      1 <= currentPage && (currentPage == 1 || currentPage <= TotalPages(|filteredAndSorted|))
    }

    constructor (catalog: seq<Product>)
      ensures this.catalog == catalog
      ensures currentPage == 1 && filteredAndSorted == [] && currentSortBy == "popularity"
      ensures Valid()
    {
      this.catalog := catalog;
      currentPage := 1;
      filteredAndSorted := [];
      currentSortBy := "popularity";
    }

    /** `renderProducts()`: reads the state, changes nothing. */
    method RenderProducts() returns (view: ListingView)
      ensures view.shown == PageSlice(filteredAndSorted, currentPage)
      ensures view.count == ProductCountDisplay(currentPage, |filteredAndSorted|)
      ensures view.items == PageItems(currentPage, TotalPages(|filteredAndSorted|))
    {
      var start := (currentPage - 1) * ProductsPerPage;
      var shown := Slice(filteredAndSorted, start, start + ProductsPerPage);
      var items := RenderPagination(currentPage, |filteredAndSorted|);
      view := ListingView(shown, ProductCountDisplay(currentPage, |filteredAndSorted|), items);
    }

    /** `applySorting()`: sorts the current list by the current order; the page is not reset. */
    method ApplySorting() returns (view: ListingView)
      requires Valid()
      modifies this
      ensures filteredAndSorted == SortProducts(ParseSortBy(currentSortBy), old(filteredAndSorted))
      ensures currentPage == old(currentPage) && currentSortBy == old(currentSortBy)
      ensures Valid()
      ensures view.shown == PageSlice(filteredAndSorted, currentPage)
    {
      SortPermutes(ParseSortBy(currentSortBy), filteredAndSorted);
      filteredAndSorted := SortProducts(ParseSortBy(currentSortBy), filteredAndSorted);
      assert |filteredAndSorted| == |old(filteredAndSorted)| by {
        assert |multiset(filteredAndSorted)| == |multiset(old(filteredAndSorted))|;
      }
      view := RenderProducts();
    }

    /** `filterAndRenderProducts()`: filter the whole catalog, back to page 1, then sort. */
    method FilterAndRenderProducts(selected: seq<string>, minPrice: Option<real>, maxPrice: Option<real>)
      returns (view: ListingView)
      modifies this
      ensures filteredAndSorted == SortProducts(ParseSortBy(currentSortBy), FilterProducts(catalog, selected, minPrice, maxPrice))
      ensures currentPage == 1 && currentSortBy == old(currentSortBy)
      ensures Valid()
      ensures view.shown == PageSlice(filteredAndSorted, 1)
    {
      filteredAndSorted := FilterProducts(catalog, selected, minPrice, maxPrice);
      currentPage := 1;
      view := ApplySorting();
    }

    /** A click on a sort option: only the order changes before the list is re-sorted. */
    method SelectSort(sortBy: string) returns (view: ListingView)
      requires Valid()
      modifies this
      ensures currentSortBy == sortBy && currentPage == old(currentPage)
      ensures filteredAndSorted == SortProducts(ParseSortBy(sortBy), old(filteredAndSorted))
      ensures Valid()
    {
      currentSortBy := sortBy;
      view := ApplySorting();
    }

    /** A click on a pagination control the last render drew. */
    method ClickPageItem(item: PageItem) returns (view: ListingView)
      requires Valid()
      requires item in PageItems(currentPage, TotalPages(|filteredAndSorted|))
      modifies this
      ensures currentPage == Click(old(currentPage), item)
      ensures filteredAndSorted == old(filteredAndSorted) && currentSortBy == old(currentSortBy)
      ensures Valid()
      ensures view.shown == PageSlice(filteredAndSorted, currentPage)
    {
      if TotalPages(|filteredAndSorted|) > 0 {
        ClickStaysInRange(currentPage, TotalPages(|filteredAndSorted|), item);
      }
      if !item.disabled && !item.active {
        currentPage := item.target;
      }
      view := RenderProducts();
    }
  }
}
