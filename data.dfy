/**
 * The product catalog of javascript/data.js: one constant array of product records.
 * Only the fields the cart, wishlist and listing logic read are kept.
 */
module Data {
  import opened Wrappers
  import opened JsBuiltins

  datatype Product = Product(
    id: string,
    name: string,
    price: int,
    category: string,
    image: string,
    reviews: int,
    stock: int)

  function ProductId(p: Product): string { p.id }

  /** The `products` constant, in catalog order. */
  const Products: seq<Product> := [
    Product("tech-001", "Apple MacBook Air M2", 120000, "laptops", "./assets/images/mac3.jpg", 250, 10),
    Product("phone-001", "iPhone 16 Pro", 130900, "phones", "./assets/images/iPhone2.jpg", 300, 15),
    Product("audio-001", "AirPods Pro (2nd Gen)", 24900, "audio", "./assets/images/airpods.jpg", 400, 20),
    Product("watch-001", "Apple Watch Series 10", 59900, "wearables", "./assets/images/watch.jpg", 180, 12),
    Product("tablet-001", "iPad Air M3", 59900, "tablets", "./assets/images/ipad.jpg", 150, 8),
    Product("accessory-001", "Apple Pencil (2nd Gen)", 11900, "accessories", "./assets/images/pencil.jpg", 120, 25),
    Product("tech-002", "iMac 24-inch M4", 180000, "desktops", "./assets/images/imac.jpg", 90, 5),
    Product("audio-002", "HomePod mini", 9900, "audio", "./assets/images/homepod.jpg", 70, 30),
    Product("accessory-002", "Magic Keyboard", 14900, "accessories", "./assets/images/magic.jpg", 60, 18)
  ]

  /** `products.find(p => p.id === id)`: the first product with that id, or undefined. */
  function Find(catalog: seq<Product>, id: string): (r: Option<Product>)
    ensures r.None? <==> forall i :: 0 <= i < |catalog| ==> catalog[i].id != id
    ensures r.Some? ==> exists i :: 0 <= i < |catalog| && catalog[i] == r.value && r.value.id == id
                                  && forall j :: 0 <= j < i ==> catalog[j].id != id
  {
    var i := FindIndexById(catalog, ProductId, id);
    if i >= 0 then Some(catalog[i]) else None
  }

  /** The number after the last `-` of a product id, as the "newest" sort reads it (`parseInt(id.split('-').pop())`). */
  function IdSuffix(id: string): Option<int>
  {
    ParseInt(LastSegment(id, '-'))
  }

  /** The ids the home page features. */
  const FeaturedIds: seq<string> := ["tech-001", "tech-002", "audio-001", "phone-001"]

  // ---------------------------------------------------------------- facts about the shipped catalog

  /** No two products share an id, so `find` by id is unambiguous. */
  lemma ProductIdsDistinct()
    ensures UniqueIds(Products, ProductId)
  {
  }

  /** Every product is in stock and has a positive price. */
  lemma ProductsStockedAndPriced()
    ensures forall i :: 0 <= i < |Products| ==> Products[i].stock > 0 && Products[i].price > 0
  {
  }

  /** Every id ends in `-` and digits, so the "newest" comparator never takes its fallback. */
  lemma ProductIdsHaveNumericSuffix()
    ensures forall i :: 0 <= i < |Products| ==> IdSuffix(Products[i].id).Some?
  {
    forall i | 0 <= i < |Products| ensures IdSuffix(Products[i].id).Some? {
      var heads := ["tech", "phone", "audio", "watch", "tablet", "accessory", "tech", "audio", "accessory"];
      var digits := ["001", "001", "001", "001", "001", "001", "002", "002", "002"];
      assert Products[i].id == heads[i] + "-" + digits[i];
      DashedSuffix(heads[i], digits[i]);
    }
  }

  /** The id `head-digits` has suffix value `digits`, whatever `head` is. */
  lemma DashedSuffix(head: string, digits: string)
    requires |digits| > 0 && forall k :: 0 <= k < |digits| ==> IsDigit(digits[k])
    ensures IdSuffix(head + "-" + digits) == ParseInt(digits) && ParseInt(digits).Some?
  {
    DashedLastSegment(head, digits);
    ParseIntDecimal(digits);
  }

  lemma {:induction false} DashedLastSegment(head: string, tail: string)
    requires '-' !in tail
    ensures LastSegment(head + "-" + tail, '-') == tail
  {
    var s := head + "-" + tail;
    if |tail| > 0 {
      var init := tail[..|tail| - 1];
      assert s[..|s| - 1] == head + "-" + init;
      assert s[|s| - 1] == tail[|tail| - 1];
      DashedLastSegment(head, init);
    }
  }

  /** The only two products that share a price are the watch and the tablet, in that catalog order. */
  lemma WatchAndTabletSharePrice()
    ensures Products[3].id == "watch-001" && Products[4].id == "tablet-001"
    ensures Products[3].price == Products[4].price == 59900
    ensures forall i, j :: 0 <= i < j < |Products| && Products[i].price == Products[j].price ==> i == 3 && j == 4
  {
  }

  /** Every featured id names a catalog product. */
  lemma FeaturedIdsExist()
    ensures forall k :: 0 <= k < |FeaturedIds| ==> Find(Products, FeaturedIds[k]).Some?
  {
    assert Products[0].id == FeaturedIds[0] && Products[6].id == FeaturedIds[1];
    assert Products[2].id == FeaturedIds[2] && Products[1].id == FeaturedIds[3];
  }
}
