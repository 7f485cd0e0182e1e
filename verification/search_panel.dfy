/** The search overlay (`Search.tsx`): a term box, the popular-search chips
    shown while the box is empty, and the results panel shown otherwise.
    The 300 ms debounce is left out: `ResultsFor` is the results state once
    the effect for the current term has settled. */
module SearchPanel {
  import Catalog
  import JsString
  import CartStore
  import JsArray
  import Storefront

  /** The chip labels, in display order. */
  const PopularSearches: seq<string> :=
    ["Monstera", "Air Purifying", "Succulents", "Low Light", "Pet Friendly"]

  /** The effect's gate: a term that trims to nothing is never searched. */
  predicate IsBlank(term: string) {
    JsString.Trim(term) == ""
  }

  /** The settled results for a term: nothing for a blank term, otherwise the
      catalog products matching the term as typed, untrimmed. */
  function ResultsFor(term: string): (r: seq<Catalog.Product>)
    ensures IsBlank(term) ==> r == []
    ensures forall k :: 0 <= k < |r| ==> r[k] in Catalog.Products && Catalog.Matches(r[k], term)
    ensures !IsBlank(term) ==>
      forall k :: 0 <= k < |Catalog.Products| && Catalog.Matches(Catalog.Products[k], term) ==>
        Catalog.Products[k] in r
  {
    if IsBlank(term) then [] else Catalog.SearchProducts(term)
  }

  /** A term is blank exactly when every character is JavaScript white space. */
  lemma BlankIffAllWhitespace(term: string)
    ensures IsBlank(term) <==> forall k :: 0 <= k < |term| ==> JsString.IsJsWhitespace(term[k])
  {
    JsString.TrimEmptyIffAllWhitespace(term);
  }

  /** What the overlay body shows. */
  datatype Panel = PopularChips | NoProductsFound | ResultList(products: seq<Catalog.Product>)

  /** The chips show for the empty term only (a strict `=== ''`); any other
      term shows the results area, which says "No products found" when the
      settled results are empty. */
  function View(term: string): (v: Panel)
    ensures v.PopularChips? <==> term == ""
    ensures v.ResultList? ==> v.products == ResultsFor(term) && |v.products| > 0
    ensures v.NoProductsFound? <==> term != "" && ResultsFor(term) == []
  {
    if term == "" then PopularChips
    else if |ResultsFor(term)| == 0 then NoProductsFound
    else ResultList(ResultsFor(term))
  }

  /** The two checks use different tests: a term of spaces only hides the
      chips but is never searched, so it shows "No products found". */
  lemma WhitespaceTermShowsNoResults(term: string)
    requires term != ""
    requires forall k :: 0 <= k < |term| ==> JsString.IsJsWhitespace(term[k])
    ensures View(term) == NoProductsFound
  {
    BlankIffAllWhitespace(term);
  }

  /** A product whose name holds a space matches the query " ". */
  lemma SpaceInName(p: Catalog.Product, i: int)
    requires 0 <= i < |p.name| && p.name[i] == ' '
    ensures Catalog.Matches(p, " ")
  {
    assert JsString.OccursAt(JsString.Lower(p.name), JsString.Lower(" "), i);
  }

  /** Every seed product name has a space in it. */
  lemma NamesHaveSpaces(k: int)
    requires 0 <= k < |Catalog.Products|
    ensures Catalog.Matches(Catalog.Products[k], " ")
  {
    if k < 6 { FirstNamesHaveSpaces(k); } else { LastNamesHaveSpaces(k); }
  }

  /** The space in each of the first six names, by position. */
  lemma FirstNamesHaveSpaces(k: int)
    requires 0 <= k < 6
    ensures Catalog.Matches(Catalog.Products[k], " ")
  {
    var p := Catalog.Products[k];
    if k == 0 { SpaceInName(p, 8); }
    else if k == 1 { SpaceInName(p, 5); }
    else if k == 2 { SpaceInName(p, 5); }
    else if k == 3 { SpaceInName(p, 6); }
    else if k == 4 { SpaceInName(p, 6); }
    else { SpaceInName(p, 2); }
  }

  /** The space in each of the last six names, by position. */
  lemma LastNamesHaveSpaces(k: int)
    requires 6 <= k < 12
    ensures Catalog.Matches(Catalog.Products[k], " ")
  {
    var p := Catalog.Products[k];
    if k == 6 { SpaceInName(p, 8); }
    else if k == 7 { SpaceInName(p, 8); }
    else if k == 8 { SpaceInName(p, 12); }
    else if k == 9 { SpaceInName(p, 4); }
    else if k == 10 { SpaceInName(p, 5); }
    else { SpaceInName(p, 6); }
  }

  /** The gate matters: handed straight to the catalog search, a single space
      would list every product, since every seed name contains one. */
  lemma GateStopsSpaceSearch()
    ensures ResultsFor(" ") == []
    ensures Catalog.SearchProducts(" ") == Catalog.Products
  {
    var keep := (p: Catalog.Product) => Catalog.Matches(p, " ");
    forall k | 0 <= k < |Catalog.Products|
      ensures keep(Catalog.Products[k])
    {
      NamesHaveSpaces(k);
    }
    JsArray.FilterAll(Catalog.Products, keep);
    BlankIffAllWhitespace(" ");
  }

  /** A chip sets the term to its label verbatim. Every label starts with a
      letter, so choosing a chip hides the chips and runs the search on it. */
  lemma ChipsAreSearched(i: int)
    requires 0 <= i < |PopularSearches|
    ensures !IsBlank(PopularSearches[i])
    ensures !View(PopularSearches[i]).PopularChips?
    ensures ResultsFor(PopularSearches[i]) == Catalog.SearchProducts(PopularSearches[i])
  {
    var chip := PopularSearches[i];
    assert !JsString.IsJsWhitespace(chip[0]);
    BlankIffAllWhitespace(chip);
  }

  /** "Add to Cart" on a result hands over the product's id, name, price and
      image and no quantity, so it adds one unit. */
  function AddResult(s: CartStore.CartState, term: string, k: int): (r: CartStore.CartState)
    requires 0 <= k < |ResultsFor(term)|
    ensures r.totalItems == s.totalItems + 1
    ensures r.totalPrice == s.totalPrice + ResultsFor(term)[k].price
    ensures CartStore.HasId(r.items, ResultsFor(term)[k].id)
  {
    Storefront.AddProduct(s, ResultsFor(term)[k])
  }
}
