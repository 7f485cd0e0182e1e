/** The product catalog: a constant list of twelve plants and the read-only
    queries the pages run over it (lookup by id, category filter, the two
    home-page slices and free-text search). */
module Catalog {
  import opened Options
  import JsArray
  import JsString

  /** A catalog entry. `ratingTenths` is the star rating times ten (4.9 is 49);
      `badge` is `None` for both an omitted and a `null` badge. */
  datatype Product = Product(
    id: int,
    name: string,
    description: string,
    price: int,
    oldPrice: Option<int>,
    image: string,
    ratingTenths: int,
    reviewCount: int,
    badge: Option<string>,
    stock: int,
    benefits: seq<string>,
    category: seq<string>)

  /** The seed data, in catalog order: six top sellers, then six trendy plants. */
  const Products: seq<Product> := [
    Product(1, "Monstera Deliciosa",
      "The iconic Swiss Cheese Plant with unique split leaves that create a dramatic tropical statement.",
      1299, Some(1499), "flower4.png", 49, 128, Some("Bestseller"), 15,
      ["Air purifying", "Low maintenance", "Stunning foliage"], ["indoor", "tropical", "popular"]),
    Product(2, "Snake Plant",
      "A virtually indestructible plant with striking upright leaves, perfect for beginners and busy plant parents.",
      899, None, "flower5.png", 47, 98, Some("Easy Care"), 8,
      ["Air purifying", "Low light tolerant", "Drought resistant"], ["indoor", "succulent", "beginner-friendly"]),
    Product(3, "Peace Lily",
      "Elegant white blooms and glossy leaves make this air-purifying plant a timeless favorite.",
      999, None, "flower6.png", 48, 112, Some("Air Purifier"), 12,
      ["Air purifying", "Beautiful blooms", "Low light tolerant"], ["indoor", "flowering", "air-purifying"]),
    Product(4, "Fiddle Leaf Fig",
      "The Instagram darling with large violin-shaped leaves that brings designer style to any room.",
      1599, Some(1899), "flower7.png", 46, 87, Some("Trending"), 5,
      ["Statement plant", "Architectural shape", "Instagram favorite"], ["indoor", "tropical", "popular"]),
    Product(5, "Pothos Golden",
      "Fast-growing vining plant with heart-shaped leaves variegated in green and golden yellow.",
      799, None, "flower8.png", 49, 156, None, 20,
      ["Air purifying", "Fast growing", "Low maintenance"], ["indoor", "hanging", "beginner-friendly"]),
    Product(6, "ZZ Plant",
      "Virtually unkillable plant with glossy leaves that thrives in low light and requires minimal water.",
      899, None, "flower9.png", 48, 92, None, 10,
      ["Low maintenance", "Low light tolerant", "Drought resistant"], ["indoor", "tropical", "beginner-friendly"]),
    Product(7, "Alocasia Zebrina",
      "Known for its striking zebra-patterned stems and large arrow-shaped leaves, this tropical plant adds exotic drama to any space.",
      1299, None, "flower2.png", 48, 94, Some("Trending"), 7,
      ["Stunning zebra-patterned stems", "Bold tropical look", "Statement piece"], ["indoor", "tropical", "rare"]),
    Product(8, "Calathea Orbifolia",
      "Featuring large, round leaves with stunning silver and green stripes that move throughout the day. A true plant collector's favorite.",
      799, None, "flower3.png", 47, 87, Some("Popular"), 12,
      ["Air purifying", "Pet friendly", "Decorative leaves"], ["indoor", "tropical", "pet-friendly"]),
    Product(9, "Philodendron Pink Princess",
      "One of the most sought-after houseplants with stunning dark green leaves splashed with vibrant pink variegation.",
      1999, Some(2499), "flower2.png", 49, 156, Some("Rare Find"), 3,
      ["Stunning pink variegation", "Collector's item", "Fast growing"], ["indoor", "tropical", "rare"]),
    Product(10, "Hoya Kerrii",
      "The adorable heart-shaped leaf plant, perfect for adding a touch of love to any space. Low maintenance and long-lasting.",
      599, None, "flower3.png", 46, 78, Some("Gift Favorite"), 18,
      ["Heart-shaped leaves", "Long-lasting", "Low maintenance"], ["indoor", "succulent", "gift"]),
    Product(11, "Pilea Peperomioides",
      "Chinese Money Plant with quirky coin-shaped leaves that brings a modern, minimalist aesthetic to any space.",
      699, None, "flower2.png", 48, 112, Some("Bestseller"), 15,
      ["Unique coin-shaped leaves", "Produces baby plants", "Modern aesthetic"], ["indoor", "unique", "popular"]),
    Product(12, "String of Pearls",
      "This succulent features cascading stems of bead-like leaves, creating a waterfall effect perfect for hanging displays.",
      549, None, "flower3.png", 47, 94, None, 9,
      ["Drought tolerant", "Unique trailing habit", "Space-efficient"], ["indoor", "succulent", "hanging"])
  ]

  /** The catalog holds twelve products whose ids are 1..12 in order, so no id repeats. */
  lemma CatalogIds()
    ensures |Products| == 12
    ensures forall k :: 0 <= k < |Products| ==> Products[k].id == k + 1
    ensures forall i, j :: 0 <= i < j < |Products| ==> Products[i].id != Products[j].id
  {
  }

  /** `getAllProducts`: the catalog itself, in catalog order. */
  function AllProducts(): (r: seq<Product>)
    ensures |r| == 12
    ensures forall k :: 0 <= k < |r| ==> r[k].id == k + 1
  {
    CatalogIds();
    Products
  }

  /** `getProductsByCategory`: the products whose tag list contains `tag`
      (exact, case-sensitive comparison), in catalog order. */
  function ProductsByCategory(tag: string): (r: seq<Product>)
    ensures forall k :: 0 <= k < |r| ==> r[k] in Products && tag in r[k].category
    ensures forall k :: 0 <= k < |Products| && tag in Products[k].category ==> Products[k] in r
    ensures JsArray.Subsequence(r, Products)
  {
    var keep := (p: Product) => tag in p.category;
    JsArray.FilterSpec(Products, keep);
    JsArray.Filter(Products, keep)
  }

  /** `getTopSellingProducts`: the first six products. */
  function TopSellingProducts(): (r: seq<Product>)
    ensures |r| == 6
    ensures forall k :: 0 <= k < |r| ==> r[k] in Products && r[k].id == k + 1
  {
    CatalogIds();
    Products[..6]
  }

  /** `getTrendyProducts`: the products at positions 6 to 11. */
  function TrendyProducts(): (r: seq<Product>)
    ensures |r| == 6
    ensures forall k :: 0 <= k < |r| ==> r[k] in Products && r[k].id == k + 7
  {
    CatalogIds();
    Products[6..12]
  }

  /** The two home-page lists split the catalog in two, with no product in both. */
  lemma TopAndTrendyPartition()
    ensures TopSellingProducts() + TrendyProducts() == AllProducts()
    ensures |TopSellingProducts()| == 6 && |TrendyProducts()| == 6
    ensures forall i, j :: 0 <= i < 6 && 0 <= j < 6 ==> TopSellingProducts()[i].id != TrendyProducts()[j].id
  {
    CatalogIds();
  }

  /** `getProductById`: the product with that id, or `None` for every id outside 1..12. */
  function ProductById(id: int): (r: Option<Product>)
    ensures r.Some? <==> 1 <= id <= 12
    ensures r.Some? ==> r.value in Products && r.value.id == id
  {
    var f := (p: Product) => p.id == id;
    CatalogIds();
    if 1 <= id <= 12 then
      JsArray.FindFirst(Products, f, id - 1);
      JsArray.Find(Products, f)
    else
      JsArray.FindNone(Products, f);
      JsArray.Find(Products, f)
  }

  /** The query matches some category tag, case-insensitively. */
  function AnyTagIncludes(tags: seq<string>, lowered: string): (b: bool)
    ensures b <==> exists k :: 0 <= k < |tags| && JsString.Includes(JsString.Lower(tags[k]), lowered)
  {
    if |tags| == 0 then false
    else if JsString.Includes(JsString.Lower(tags[0]), lowered) then true
    else
      var b := AnyTagIncludes(tags[1..], lowered);
      assert forall k :: 0 < k < |tags| ==> tags[1..][k - 1] == tags[k];
      b
  }

  /** The search predicate: the lower-cased query is a substring of the
      lower-cased name, description or some category tag. */
  predicate Matches(p: Product, query: string) {
    var q := JsString.Lower(query);
    || JsString.Includes(JsString.Lower(p.name), q)
    || JsString.Includes(JsString.Lower(p.description), q)
    || AnyTagIncludes(p.category, q)
  }

  /** `searchProducts`: the matching products, in catalog order. */
  function SearchProducts(query: string): (r: seq<Product>)
    ensures forall k :: 0 <= k < |r| ==> r[k] in Products && Matches(r[k], query)
    ensures forall k :: 0 <= k < |Products| && Matches(Products[k], query) ==> Products[k] in r
    ensures JsArray.Subsequence(r, Products)
  {
    var keep := (p: Product) => Matches(p, query);
    JsArray.FilterSpec(Products, keep);
    JsArray.Filter(Products, keep)
  }

  /** Only the lower-cased query matters, so search ignores the query's case. */
  lemma SearchIgnoresQueryCase(query: string)
    ensures SearchProducts(query) == SearchProducts(JsString.Lower(query))
  {
    JsString.LowerIdempotent(query);
    JsArray.FilterCongruent(Products, (p: Product) => Matches(p, query),
                            (p: Product) => Matches(p, JsString.Lower(query)));
  }

  /** The empty query is a substring of every name, so it returns the whole catalog. */
  lemma EmptySearchIsWholeCatalog()
    ensures SearchProducts("") == AllProducts()
  {
    var keep := (p: Product) => Matches(p, "");
    forall k | 0 <= k < |Products|
      ensures keep(Products[k])
    {
      assert JsString.OccursAt(JsString.Lower(Products[k].name), "", 0);
    }
    JsArray.FilterAll(Products, keep);
  }

  /** Benefits and badge take no part in search: changing them never changes a match. */
  lemma SearchIgnoresBenefitsAndBadge(p: Product, query: string, benefits: seq<string>, badge: Option<string>)
    ensures Matches(p.(benefits := benefits, badge := badge), query) == Matches(p, query)
  {
  }

  predicate IsSucculent(p: Product) {
    "succulent" in p.category
  }

  /** Filtering twelve elements of which exactly those at 1, 9 and 11 are
      kept yields those three, in order. */
  lemma {:induction false} FilterKeepsOneNineEleven<T>(s: seq<T>, keep: T -> bool)
    requires |s| == 12
    requires forall k :: 0 <= k < 12 ==> (keep(s[k]) <==> k == 1 || k == 9 || k == 11)
    ensures JsArray.Filter(s, keep) == [s[1], s[9], s[11]]
  {
    assert JsArray.Filter(s[6..], keep) == [s[9], s[11]] by {
      assert s[12..] == [];
      JsArray.FilterSuffixStep(s, 11, keep);
      JsArray.FilterSuffixStep(s, 10, keep);
      JsArray.FilterSuffixStep(s, 9, keep);
      JsArray.FilterSuffixStep(s, 8, keep);
      JsArray.FilterSuffixStep(s, 7, keep);
      JsArray.FilterSuffixStep(s, 6, keep);
    }
    JsArray.FilterSuffixStep(s, 5, keep);
    JsArray.FilterSuffixStep(s, 4, keep);
    JsArray.FilterSuffixStep(s, 3, keep);
    JsArray.FilterSuffixStep(s, 2, keep);
    JsArray.FilterSuffixStep(s, 1, keep);
    JsArray.FilterSuffixStep(s, 0, keep);
    assert s[0..] == s;
  }

  /** Which of the first six products are tagged "succulent": only the second. */
  lemma SucculentTagsFirstHalf(k: int)
    requires 0 <= k < 6
    ensures IsSucculent(Products[k]) <==> k == 1
  {
  }

  /** Which of the last six products are tagged "succulent": the tenth and twelfth. */
  lemma SucculentTagsSecondHalf(k: int)
    requires 6 <= k < 12
    ensures IsSucculent(Products[k]) <==> k == 9 || k == 11
  {
  }

  /** `getProductsByCategory('succulent')` over the seed data is the Snake
      Plant, the Hoya Kerrii and the String of Pearls (ids 2, 10, 12), in that order. */
  lemma SucculentCategory()
    ensures ProductsByCategory("succulent") == [Products[1], Products[9], Products[11]]
    ensures Products[1].id == 2 && Products[9].id == 10 && Products[11].id == 12
  {
    JsArray.FilterCongruent(Products, (p: Product) => "succulent" in p.category, IsSucculent);
    forall k | 0 <= k < 12
      ensures IsSucculent(Products[k]) <==> k == 1 || k == 9 || k == 11
    {
      if k < 6 { SucculentTagsFirstHalf(k); } else { SucculentTagsSecondHalf(k); }
    }
    FilterKeepsOneNineEleven(Products, IsSucculent);
  }
}
