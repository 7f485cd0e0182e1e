# Plant storefront: cart, catalog and carousel logic in Dafny

The storefront is a single-page React shop for house plants. A fixed catalog of twelve
products sits in a service module. A cart context keeps the basket in a reducer. The
pages show the products in carousels, a search overlay, a product overlay and a slide-in
cart panel. This project models the logic under that markup as immutable datatypes and
pure transition functions, and proves what the code promises:

- the cart reducer and its dispatch wrappers: totals equal the sums over the lines, and no id appears twice;
- the catalog queries: lookup by id, the exact category filter, the top/trendy slices, and case-insensitive substring search;
- the cart panel: shipping fee and grand total, and how its buttons route to reducer actions;
- the product overlay: the quantity stepper bounded by stock, the disabled buttons, the discount percentage, the low-stock marker, and the add-to-cart hand-off;
- the search overlay: the blank-term gate, the popular-search chips, which panel shows, and adding a result;
- the "Top Selling" carousel: items per view, slide count, prev/next/dot moves under the animation lock, the visible cards, likes;
- the "Customer Review" slider: its three-card window, arrows, dots and highlight;
- the `useResponsive` hook: breakpoints, below/above/between, and the device and size flags.

Modules, one per source file, plus small models of the JavaScript built-ins they use:

| file | module | models |
|---|---|---|
| `options.dfy` | `Options` | `undefined`-or-value results |
| `js_math.dfy` | `JsMath` | `Math.floor`, `Math.ceil` and `Math.round` of a quotient, in integers |
| `js_array.dfy` | `JsArray` | `filter`, `find` and `slice` |
| `js_string.dfy` | `JsString` | `toLowerCase` (ASCII), `includes` and `trim` |
| `catalog.dfy` | `Catalog` | `src/services/productService.ts` |
| `cart_store.dfy` | `CartStore` | `src/context/CartContext.tsx` |
| `cart_panel.dfy` | `CartPanel` | `src/components/Cart.tsx` |
| `product_detail.dfy` | `ProductDetail` | `src/components/ProductDetail.tsx` |
| `search_panel.dfy` | `SearchPanel` | `src/components/Search.tsx` |
| `top_selling.dfy` | `TopSelling` | `src/components/TopSelling.tsx` |
| `customer_reviews.dfy` | `CustomerReviews` | `src/components/CustomerReviews.tsx` |
| `responsive.dfy` | `Responsive` | `src/hooks/useResponsive.ts` |
| `storefront.dfy` | `Storefront` | how the pages feed the cart |

Modelling choices:

- **The reducer's price precondition.** On an add for an id already in the cart, the reducer raises `totalPrice` by the payload's price. The line keeps its stored price. The totals invariant therefore needs the two prices to agree. `CartStore.ReducePreservesWellFormed` takes that as a precondition. `CartStore.PriceMismatchBreaksTotals` shows it cannot be dropped. `Storefront.SessionStaysWellFormed` discharges it for every add the pages can make, because every add carries a catalog product at its catalog price.
- **Card lists.** The top-selling carousel keeps its own list of six products (`src/components/TopSelling.tsx:7-80`). `TopSelling.Cards` holds the fields the carousel hands to the cart (id, name, price, image), and `TopSelling.CardsAgreeWithCatalog` shows they are those of the catalog's first six products. The trendy list (`src/components/TrendyPlants.tsx:7-81`) is not part of this model; it likewise agrees with the catalog's last six products on those fields.
- **Timers.** The animation lock in both carousels is released by a 500 ms timer. An effect keyed on the slide index arms it. The clock is not modelled. Each carousel state records whether a timer is armed (`timerPending`), and `TimerFires` is the event of that timer running.
- **Ratings.** A product's rating (a decimal such as 4.9) is stored in tenths (`49`).

## Model

| member | source | states |
|---|---|---|
| `CartStore.IndexOfId` | src/context/CartContext.tsx:47 | `findIndex` by id: the first line with the id, or -1 exactly when no line has it |
| `CartStore.Reduce` | src/context/CartContext.tsx:44-111 | the reducer: an add puts the id in the cart with at most one more line, a remove leaves no line with the id, an update keeps the lines and their ids (well-formedness: `CartStore.ReducePreservesWellFormed`) |
| `CartStore.AddNewLine` | src/context/CartContext.tsx:62-68 | adding an absent id appends exactly the payload, keeps every earlier line in place, raises the totals by the payload's quantity and cost, and keeps a well-formed cart well formed |
| `CartStore.AddExistingLine` | src/context/CartContext.tsx:47-59 | adding a present id keeps the line count, raises only that line's quantity by the payload's, raises the totals by the payload's quantity times the payload's price, keeps ids unique, and keeps the totals right when the prices agree |
| `CartStore.AbsentIdIsNoOp` | src/context/CartContext.tsx:72-74 | remove or update of an id not in the cart returns the state unchanged |
| `CartStore.RemovePresentLine` | src/context/CartContext.tsx:71-83 | remove keeps exactly the lines with other ids, in order, and subtracts the found line's quantity and cost; with unique ids it deletes exactly that one line and the cart stays well formed |
| `CartStore.RemoveUniquePresentLine` | src/context/CartContext.tsx:71-83 | with unique ids, remove deletes exactly the found line, leaving the lines before and after it in order, and keeps a well-formed cart well formed |
| `CartStore.UpdatePresentLine` | src/context/CartContext.tsx:86-102 | update sets the found line's quantity to any given value (zero and negatives included), leaves the other lines alone, and shifts both totals by the quantity difference |
| `CartStore.ClearEmpties` | src/context/CartContext.tsx:27-31 | clearing yields the initial state (no lines, zero totals) from any state |
| `CartStore.ReducePreservesWellFormed` | src/context/CartContext.tsx:44-111 | every action keeps totals equal to the sums over the lines and ids unique, provided an add for a present id carries the stored price |
| `CartStore.PriceMismatchBreaksTotals` | src/context/CartContext.tsx:57-58 | without that proviso a second add at another price leaves `totalPrice` different from the sum of price times quantity |
| `CartStore.AddToCart` | src/context/CartContext.tsx:118-123 | `addToCart` adds one unit: one more item, the item's price more, the id in the cart, and a new line only when the id was absent |
| `CartStore.AddToCartIgnoresQuantity` | src/context/CartContext.tsx:118-122 | whatever quantity the caller passes, the spread overrides it with 1 |
| `CartStore.RemoveFromCart` | src/context/CartContext.tsx:126-131 | after `removeFromCart(id)` no line has the id and there are no more lines than before |
| `CartStore.SetQuantity` | src/context/CartContext.tsx:134-139 | `updateQuantity` keeps the lines and their ids and sets the present id's quantity to the value given |
| `CartStore.ClearAll` | src/context/CartContext.tsx:142-144 | `clearCart` empties the cart and zeroes both totals |
| `CartStore.AddTwiceMerges` | src/context/CartContext.tsx:47-68 | adding the same item twice to the empty cart gives one line of quantity 2 and twice the price |
| `CartStore.AddUpdateRemoveScenario` | src/context/CartContext.tsx:44-111 | add a Snake Plant, set it to 3 (3 items, 2697), remove it: back to the initial state |
| `Catalog.CatalogIds` | src/services/productService.ts:18-179 | the catalog has twelve products with ids 1..12 in order, so no id repeats |
| `Catalog.AllProducts` | src/services/productService.ts:182-184 | `getAllProducts` gives twelve products with ids 1 to 12 in order |
| `Catalog.ProductsByCategory` | src/services/productService.ts:187-189 | a product is in the result iff its tag list contains the tag exactly, and the result keeps catalog order |
| `Catalog.SucculentCategory` | src/services/productService.ts:187-189 | `'succulent'` gives the products with ids 2, 10 and 12 |
| `Catalog.TopSellingProducts` | src/services/productService.ts:192-194 | `getTopSellingProducts` gives six catalog products, ids 1 to 6 in order |
| `Catalog.TrendyProducts` | src/services/productService.ts:197-199 | `getTrendyProducts` gives six catalog products, ids 7 to 12 in order |
| `Catalog.TopAndTrendyPartition` | src/services/productService.ts:192-199 | the first six and the last six products partition the catalog, with no id in both |
| `Catalog.ProductById` | src/services/productService.ts:202-204 | a product comes back iff 1 <= id <= 12, and it is the catalog product with that id |
| `Catalog.AnyTagIncludes` | src/services/productService.ts:212 | true iff some lower-cased tag contains the lowered query |
| `Catalog.SearchProducts` | src/services/productService.ts:207-214 | a product is in the result iff the lower-cased query is a substring of its lower-cased name, description or some tag; the result keeps catalog order |
| `Catalog.SearchIgnoresQueryCase` | src/services/productService.ts:208 | searching a query and its lower-cased form give the same result |
| `Catalog.EmptySearchIsWholeCatalog` | src/services/productService.ts:207-214 | the empty query returns the whole catalog |
| `Catalog.SearchIgnoresBenefitsAndBadge` | src/services/productService.ts:209-213 | changing a product's benefits or badge never changes whether it matches |
| `CartPanel.ShippingFee` | src/components/Cart.tsx:188 | the fee is 0 iff the subtotal is at least 999, and 99 otherwise |
| `CartPanel.GrandTotal` | src/components/Cart.tsx:194 | the total is the subtotal plus the fee, never below the subtotal and at most 99 above, equal iff the subtotal is at least 999 |
| `CartPanel.ShippingBoundary` | src/components/Cart.tsx:188-194 | 998 costs 1097 in all; 999 ships free |
| `CartPanel.ButtonAction` | src/components/Cart.tsx:133-167 | minus becomes remove iff the line's quantity is at most 1; plus raises the quantity; no panel button adds |
| `CartPanel.LineOfItem` | src/components/Cart.tsx:97-160 | an item rendered from the cart is the line the reducer finds by its id |
| `CartPanel.PanelKeepsQuantitiesPositive` | src/components/Cart.tsx:133-167 | the panel's buttons never make a quantity less than 1, and keep a well-formed cart well formed |
| `CartPanel.RemoveKeepsPositive` | src/components/Cart.tsx:133-160 | removing a present line from a cart of positive quantities leaves only positive quantities and keeps a well-formed cart well formed |
| `CartPanel.UpdateKeepsPositive` | src/components/Cart.tsx:133-145 | setting a present line to a quantity of at least 1 leaves only positive quantities and keeps a well-formed cart well formed |
| `CartPanel.AddToCartKeepsPositive` | src/context/CartContext.tsx:118-123 | `addToCart` never makes a quantity less than 1 |
| `CartPanel.DecreaseRouting` | src/components/Cart.tsx:133 | minus at quantity 1 removes the line; above 1 it lowers the quantity by one |
| `CartPanel.IncreaseHasNoCap` | src/components/Cart.tsx:143 | plus raises the quantity by one whatever it is; no stock cap applies |
| `CartPanel.TrashAndClear` | src/components/Cart.tsx:153-179 | the trash button removes the line; the clear button empties the cart, which hides the clear button and footer |
| `ProductDetail.ChangeQuantity` | src/components/ProductDetail.tsx:26-31 | a change is applied iff the new quantity lies in [1, stock], otherwise the quantity stays; so a quantity in [1, stock] stays in [1, stock] (used by `ProductDetail.ChangesKeepRange`) |
| `ProductDetail.ChangesKeepRange` | src/components/ProductDetail.tsx:26-31 | any sequence of changes keeps a quantity in [1, stock] there |
| `ProductDetail.StepperStaysInRange` | src/components/ProductDetail.tsx:22-31 | starting from 1 with stock at least 1, the quantity stays in [1, stock] after any changes |
| `ProductDetail.ButtonsMatchGuard` | src/components/ProductDetail.tsx:155-167 | minus is disabled iff minus would change nothing, and plus likewise |
| `ProductDetail.LowStockInCatalog` | src/components/ProductDetail.tsx:88 | the low-stock marker shows for ids 4 and 9 only |
| `ProductDetail.DiscountPercent` | src/components/ProductDetail.tsx:123-126 | a badge shows iff an old price is present and nonzero; its value is the percentage off rounded half up |
| `ProductDetail.DiscountInRange` | src/components/ProductDetail.tsx:123-126 | when 0 <= price <= old price the badge shows a value from 0 to 100 |
| `ProductDetail.CatalogDiscounts` | src/components/ProductDetail.tsx:123-126 | the seed discounts are 13%, 16% and 20% (ids 1, 4, 9); no other product shows one |
| `ProductDetail.HandleAddToCart` | src/components/ProductDetail.tsx:33-42 | the overlay's add raises the cart by one item and the product's price |
| `ProductDetail.SelectedQuantityIsDropped` | src/components/ProductDetail.tsx:33-42 | the chosen quantity makes no difference: the result equals adding quantity 1 |
| `JsMath.RoundDiv` | src/components/ProductDetail.tsx:125 | `Math.round(n/d)`: the result is within half a unit of the quotient, ties rounded up |
| `SearchPanel.ResultsFor` | src/components/Search.tsx:31-46 | a blank term gives no results; otherwise the results are exactly the catalog products matching the untrimmed term |
| `SearchPanel.BlankIffAllWhitespace` | src/components/Search.tsx:32 | a term is blank iff every character is JavaScript white space |
| `SearchPanel.View` | src/components/Search.tsx:137-198 | the chips show iff the term is exactly empty; "No products found" shows iff the term is nonempty and the results are empty |
| `SearchPanel.WhitespaceTermShowsNoResults` | src/components/Search.tsx:32-35 | a nonempty term of spaces hides the chips but is never searched, so it shows "No products found" |
| `SearchPanel.GateStopsSpaceSearch` | src/components/Search.tsx:32-41 | " " gives no results, though the catalog search alone would return every product |
| `SearchPanel.ChipsAreSearched` | src/components/Search.tsx:141-145 | every chip label is non-blank, so choosing it hides the chips and searches the label verbatim |
| `SearchPanel.AddResult` | src/components/Search.tsx:82-90 | adding a result adds one unit of that product, at its price |
| `Storefront.AddProduct` | src/components/Search.tsx:82-90 | a card's add passes the product's id, name, price and image: one more unit, a new line equal to the product's fields with quantity 1, and no quantity below 1 if there was none before |
| `Storefront.AddProductIsFromPages` | src/services/productService.ts:18-179 | adding a catalog product is an add whose id and price match the catalog |
| `Storefront.PricedActionsKeepPrices` | src/context/CartContext.tsx:44-111 | if every line and every add carry the price a fixed id-to-price table gives, the action meets the reducer's price precondition and the lines stay priced by the table |
| `Storefront.RunKeepsInvariant` | src/context/CartContext.tsx:44-111 | a run of such actions from a well-formed cart priced by the table keeps it well formed and priced by the table |
| `Storefront.SessionStaysWellFormed` | src/context/CartContext.tsx:44-111 | from the empty cart, any session of page actions keeps totals equal to the sums and ids unique |
| `Storefront.EventKeepsShoppable` | src/components/Cart.tsx:133-179 | a catalog-priced add or an on-screen panel press keeps the cart well formed, priced by the table, and every quantity at least 1 |
| `Storefront.ShopKeepsShoppable` | src/context/CartContext.tsx:44-144 | any sequence of such events keeps that invariant |
| `Storefront.ShopSessionKeepsCart` | src/context/CartContext.tsx:44-144 | from the empty cart, any session of catalog adds and on-screen panel presses keeps totals equal to the sums, one line per id, and every quantity at least 1 |
| `TopSelling.Cards` | src/components/TopSelling.tsx:7-80 | the component's own list has six cards with distinct ids |
| `TopSelling.CardsAgreeWithCatalog` | src/components/TopSelling.tsx:7-80 | card k has the id, name, price and image of the k-th product of `getTopSellingProducts` |
| `TopSelling.ItemsPerView` | src/components/TopSelling.tsx:96-104 | 1 below 640 px, 3 from 1024 px, 2 between |
| `TopSelling.TotalSlides` | src/components/TopSelling.tsx:118 | the slide count is the least count whose slides hold all six cards |
| `TopSelling.SlideCounts` | src/components/TopSelling.tsx:118 | six cards make 6, 3 or 2 slides |
| `TopSelling.Mount` | src/components/TopSelling.tsx:83-107 | after the mount effects the carousel is on slide 0, unlocked, with the width's items per view and a timer armed: a valid state whose slide is full |
| `TopSelling.TimerFires` | src/components/TopSelling.tsx:164-170 | the armed timer clears the lock and nothing else; from a valid state the result is valid and unlocked |
| `TopSelling.Next` | src/components/TopSelling.tsx:129-134 | next moves one slide on and takes the lock unless on the last slide or locked; otherwise nothing changes |
| `TopSelling.Prev` | src/components/TopSelling.tsx:136-141 | prev moves one slide back and takes the lock unless on the first slide or locked; otherwise nothing changes |
| `TopSelling.ButtonsMatchHandlers` | src/components/TopSelling.tsx:228-238 | each arrow is disabled iff its handler would change nothing |
| `TopSelling.GoToAsWritten` | src/components/TopSelling.tsx:143-148 | as written, an unlocked click takes the lock and sets the index, and a timer is armed only if the index changed; so a click on the current dot with no timer armed leaves the carousel locked with nothing to release it |
| `TopSelling.GoTo` | src/components/TopSelling.tsx:143-148 | corrected: a click on the current dot is ignored, otherwise it jumps, locks and arms a timer; it never creates a lock without a timer, and a click on an existing dot keeps a valid state valid |
| `TopSelling.CurrentDotLocksCarousel` | src/components/TopSelling.tsx:143-170 | as written, clicking the highlighted dot of an idle carousel takes the lock with no timer armed |
| `TopSelling.LockedForever` | src/components/TopSelling.tsx:129-170 | as written, from such a state every sequence of events leaves the carousel locked on the same slide |
| `TopSelling.CurrentDotIgnored` | src/components/TopSelling.tsx:143-148 | corrected, the same click leaves the idle carousel as it was |
| `TopSelling.ResizeAsWritten` | src/components/TopSelling.tsx:95-118 | as written, a resize changes items per view and nothing else; when the index is then past the last slide no card is visible |
| `TopSelling.PastLastSlideIsEmpty` | src/components/TopSelling.tsx:118-195 | with six cards, a slide at or past `totalSlides` is empty |
| `TopSelling.Resize` | src/components/TopSelling.tsx:95-118 | corrected: an index past the new last slide is clamped to it and a timer is armed; from a valid state the result is valid and its slide is full |
| `TopSelling.WideningResizeEmptiesSlide` | src/components/TopSelling.tsx:95-118 | as written, index 5 on a phone widened to 1280 px shows no cards and no highlighted dot |
| `TopSelling.ResizeKeepsSlideFull` | src/components/TopSelling.tsx:95-118 | corrected, a resize keeps the state valid and the slide full |
| `TopSelling.Step` | src/components/TopSelling.tsx:95-170 | every event of the corrected carousel keeps the layout known, the index on a slide, and the lock covered by an armed timer |
| `TopSelling.ValidSlideIsFull` | src/components/TopSelling.tsx:192-195 | in a valid state the visible cards are exactly items-per-view consecutive cards starting at index times items per view |
| `TopSelling.EveryCardOnOneSlide` | src/components/TopSelling.tsx:192-195 | card k sits at position k mod n of slide k div n, and on no other slide |
| `TopSelling.Slide` | src/components/TopSelling.tsx:192-195 | `visibleProducts` for a non-negative index: at most items-per-view cards, the cards from position index times items per view on |
| `TopSelling.Visible` | src/components/TopSelling.tsx:192-195 | in a valid state exactly items-per-view cards are visible |
| `TopSelling.OneDotHighlighted` | src/components/TopSelling.tsx:345-351 | with six cards the dots always show, and exactly one is highlighted |
| `TopSelling.LockReleasedByTimer` | src/components/TopSelling.tsx:164-170 | in a valid state the lock is gone once the armed timer runs |
| `TopSelling.ToggleLike` | src/components/TopSelling.tsx:120-127 | `toggleLike` makes the id liked iff it was not (other ids: `TopSelling.ToggleFlipsOnlyThatId`) |
| `TopSelling.ToggleFlipsOnlyThatId` | src/components/TopSelling.tsx:120-127 | a toggle flips whether the id is liked and leaves every other id's membership alone |
| `TopSelling.LikeThenUnlike` | src/components/TopSelling.tsx:120-127 | liking then unliking a card that was not liked restores the list exactly |
| `TopSelling.AddCard` | src/components/TopSelling.tsx:150-158 | a visible card's add adds one unit of that product, at its price |
| `TopSelling.AddCardIsCatalogAdd` | src/components/TopSelling.tsx:150-158 | on a valid carousel, adding a visible card is the storefront's add of the catalog product at that position |
| `CustomerReviews.ReviewCount` | src/components/CustomerReviews.tsx:6-57 | there are five reviews |
| `CustomerReviews.Window` | src/components/CustomerReviews.tsx:64 | `visibleReviews` for a non-negative index: at most three reviews, those from the active one on, and at least two for a first card from 0 to 3 |
| `CustomerReviews.Next` | src/components/CustomerReviews.tsx:66-71 | next moves one card on and takes the lock iff a full window still follows and the slider is unlocked |
| `CustomerReviews.Prev` | src/components/CustomerReviews.tsx:73-78 | prev moves one card back and takes the lock iff not on the first card and unlocked |
| `CustomerReviews.ArrowsMatchHandlers` | src/components/CustomerReviews.tsx:103-113 | each arrow is disabled iff its handler would change nothing |
| `CustomerReviews.TimerFires` | src/components/CustomerReviews.tsx:80-86 | the armed timer clears the lock and the window stays; from a valid state the result is valid and unlocked |
| `CustomerReviews.DotCount` | src/components/CustomerReviews.tsx:209 | the dot count is the least count of three-card groups covering the reviews |
| `CustomerReviews.DotClick` | src/components/CustomerReviews.tsx:212 | an unlocked dot click jumps to three times the dot's index without taking the lock, and that dot becomes the highlighted one; a rendered dot keeps a valid state valid; locked, nothing changes |
| `CustomerReviews.Step` | src/components/CustomerReviews.tsx:59-86 | every event keeps the first card between 0 and 3 and the lock covered by an armed timer |
| `CustomerReviews.ArrowsKeepWindowFull` | src/components/CustomerReviews.tsx:64-78 | with arrows alone, from a full window, `activeIndex + 3` never passes the review count and three reviews stay in view |
| `CustomerReviews.WindowContents` | src/components/CustomerReviews.tsx:64 | the window is the reviews from the active one on, three or as many as remain, never fewer than two |
| `CustomerReviews.SecondDotShowsTwo` | src/components/CustomerReviews.tsx:209-212 | there are two dots, and the second one shows only the last two reviews |
| `CustomerReviews.OneDotHighlighted` | src/components/CustomerReviews.tsx:209-214 | in every reachable state exactly one of the two dots is highlighted |
| `Responsive.BreakpointsIncrease` | src/hooks/useResponsive.ts:4-11 | the breakpoint values increase strictly: xs < sm < md < lg < xl < 2xl |
| `Responsive.TestsAgree` | src/hooks/useResponsive.ts:61-64 | `above` is the negation of `below`; `between(a, b)` is `above(a)` and `below(b)`, and holds for no width unless a comes before b |
| `Responsive.FlagsFor` | src/hooks/useResponsive.ts:66-75 | mobile below 640, tablet from 640 below 1024, desktop from 1024, 2xl from 1536 |
| `Responsive.InitialWidth` | src/hooks/useResponsive.ts:33-36 | the starting width is the window's, or 0 without a window, in which case the hook reports a phone (`isMobile`, `isXs`) and the carousel shows one card |
| `Responsive.NoWindowIsMobile` | src/hooks/useResponsive.ts:33-36 | without a window the hook reports a phone |
| `Responsive.OneDeviceFlag` | src/hooks/useResponsive.ts:67-69 | exactly one of mobile, tablet and desktop holds for every width |
| `Responsive.OneSizeFlag` | src/hooks/useResponsive.ts:70-75 | exactly one size flag holds for every width; tablet is sm or md, desktop is lg, xl or 2xl |
| `Responsive.XsEntryUnused` | src/hooks/useResponsive.ts:5-70 | `isXs` equals `isMobile`, and changing the xs value changes no flag |
| `Responsive.CarouselMatchesDeviceFlags` | src/components/TopSelling.tsx:96-104 | the carousel's one, two or three cards per view line up with mobile, tablet and desktop |

## Left out

- Catalog.SearchProducts: no lemma computes the result of a particular non-empty query over the seed catalog (for example that "monstera" finds only Monstera Deliciosa). Ruling a query out needs substring checks at every position of the long literal descriptions, which exceeds the verifier's resource limit. The lemmas state the search's general properties instead.
- TopSelling.Cards: keeps only the id, name, price and image of each local card. The description, rating, badge, stock and benefits feed the markup and the product overlay, which is modelled over catalog products.
- Markup and presentation: JSX, styling, icons, hover state, star rendering, and the header's "99+" badge.
- Pages outside the core: the Products page's unwired sort and filter controls, and the Categories page's filter, which repeats `getProductsByCategory`.
- Timers as time. The search debounce is not modelled: `SearchPanel.ResultsFor` is the settled result. The animation timeouts are the `TimerFires` events.
- The search overlay's loading flag. It is set and cleared inside one callback, so it never shows.
- DOM plumbing: resize listeners, click-outside and Escape handlers, focus, scrolling, and the `useCart` provider check.
- The reducer's in-place mutation of a line object inside a copied array, and React StrictMode calling reducers twice. The model is the intended immutable transition.
- Floating point. `toFixed` formatting is not modelled. The discount percentage is computed in integers: `ProductDetail.DiscountPercent` rounds the exact quotient and ignores binary floating-point error in `(old - price) / old * 100`.
- JsString.Lower: lower-cases ASCII letters only, because the seed data is ASCII.
- SearchPanel.ChipsAreSearched: proves that each chip searches its label verbatim, but not that "Air Purifying", "Succulents" and "Pet Friendly" find nothing in the seed catalog. That needs substring search over the long literal descriptions, which is beyond what the solver evaluates in reasonable time. `Catalog.SearchIgnoresBenefitsAndBadge` proves the general reason "Pet Friendly" misses product 8: benefits are never searched.
- The carousels' translate and width percentages. In the review slider, the cards in view are taken to be the `visibleReviews` window.
- Header cart/search exclusion, which depends on effect ordering.
- The product overlay's like button and the carousels' hovered-card state, which only affect display.

## Findings

| source | as written | input that shows it | evidently intended | confidence | as-written member | corrected member |
|---|---|---|---|---|---|---|
| src/components/TopSelling.tsx:143-148, 164-170 | `goToSlide(i)` sets `isAnimating` even when `i` is the current index; the reset timer is armed only when the index changes | mount at 1280 px, let the mount timer run, click the highlighted first dot: the lock is taken and no timer will release it, so prev, next and every dot stay dead | a click on the current dot leaves the carousel usable | high, not executed | `TopSelling.GoToAsWritten` (shown by `TopSelling.CurrentDotLocksCarousel`, `TopSelling.LockedForever`) | `TopSelling.GoTo` (with `TopSelling.Step`, `TopSelling.CurrentDotIgnored`) |
| src/components/TopSelling.tsx:95-118, 192-195 | a resize changes `itemsPerView` but keeps `currentIndex` | on a phone step to slide 6 (index 5), then widen the window to 1280 px: 2 slides, index 5, `slice(15, 18)` is empty and no dot is highlighted | the index stays on an existing slide | medium, not executed | `TopSelling.ResizeAsWritten` (shown by `TopSelling.WideningResizeEmptiesSlide`) | `TopSelling.Resize` (with `TopSelling.ResizeKeepsSlideFull`, `TopSelling.Step`) |
