/** The "Top Selling Plants" carousel (`TopSelling.tsx`): six product cards
    shown one, two or three at a time, prev/next buttons, one dot per slide,
    a 500 ms animation lock, and a like toggle per card.

    The lock is released by an effect keyed on the slide index: whenever the
    index changes (and once on mount) it cancels the pending timer and arms a
    new one that clears `isAnimating`. `timerPending` records whether such a
    timer is armed; the clock itself is left out, and `TimerFires` is the
    moment the armed timer runs. */
module TopSelling {
  import Options
  import JsMath
  import JsArray
  import Catalog
  import CartStore
  import Storefront

  /** What the carousel reads from an entry of its local product list: the
      fields `handleAddToCart` passes on. */
  datatype Card = Card(id: int, name: string, price: int, image: string)

  /** The component's own list of six products. */
  function Cards(): (r: seq<Card>)
    ensures |r| == 6
    ensures forall i, j :: 0 <= i < j < |r| ==> r[i].id != r[j].id
  {
    [ Card(1, "Monstera Deliciosa", 1299, "flower4.png"),
      Card(2, "Snake Plant", 899, "flower5.png"),
      Card(3, "Peace Lily", 999, "flower6.png"),
      Card(4, "Fiddle Leaf Fig", 1599, "flower7.png"),
      Card(5, "Pothos Golden", 799, "flower8.png"),
      Card(6, "ZZ Plant", 899, "flower9.png") ]
  }

  /** The local list is a copy of the catalog's top sellers: card `k` has the
      id, name, price and image of the catalog's `k`-th product. */
  lemma CardsAgreeWithCatalog()
    ensures |Cards()| == |Catalog.TopSellingProducts()|
    ensures forall k :: 0 <= k < |Cards()| ==>
      var p := Catalog.TopSellingProducts()[k];
      Cards()[k] == Card(p.id, p.name, p.price, p.image)
  {
    forall k | 0 <= k < 6
      ensures var p := Catalog.Products[k]; Cards()[k] == Card(p.id, p.name, p.price, p.image)
    {
      if k < 3 { FirstCardsAgree(k); } else { LastCardsAgree(k); }
    }
  }

  lemma FirstCardsAgree(k: int)
    requires 0 <= k < 3
    ensures var p := Catalog.Products[k]; Cards()[k] == Card(p.id, p.name, p.price, p.image)
  {
  }

  lemma LastCardsAgree(k: int)
    requires 3 <= k < 6
    ensures var p := Catalog.Products[k]; Cards()[k] == Card(p.id, p.name, p.price, p.image)
  {
  }

  /** `handleResize`: one card below 640 px, two below 1024 px, else three. */
  function ItemsPerView(width: int): (n: int)
    ensures 1 <= n <= 3
    ensures n == 1 <==> width < 640
    ensures n == 3 <==> width >= 1024
  {
    if width < 640 then 1 else if width < 1024 then 2 else 3
  }

  /** `Math.ceil(products.length / itemsPerView)`. */
  function TotalSlides(itemsPerView: int): (n: int)
    requires itemsPerView > 0
    ensures n * itemsPerView - itemsPerView < 6 <= n * itemsPerView
  {
    JsMath.CeilDiv(6, itemsPerView)
  }

  /** Six cards make six, three or two slides, each one full. */
  lemma SlideCounts()
    ensures TotalSlides(1) == 6 && TotalSlides(2) == 3 && TotalSlides(3) == 2
  {
  }

  datatype Carousel = Carousel(index: int, animating: bool, itemsPerView: int, timerPending: bool)

  /** The state after the mount effects: slide 0, unlocked, `itemsPerView`
      set by the initial `handleResize` call (the first render uses 3), and a
      timer armed by the mount run of the index effect. */
  function Mount(width: int): (c: Carousel)
    ensures c.index == 0 && !c.animating && c.timerPending
    ensures c.itemsPerView == ItemsPerView(width)
    ensures Valid(c) && |Visible(c)| == c.itemsPerView
  {
    Carousel(0, false, ItemsPerView(width), true)
  }

  /** The armed timer runs and clears the lock; without one nothing happens. */
  function TimerFires(c: Carousel): (r: Carousel)
    ensures c.timerPending ==> !r.animating && !r.timerPending
    ensures !c.timerPending ==> r == c
    ensures r.index == c.index && r.itemsPerView == c.itemsPerView
    ensures Valid(c) ==> Valid(r) && !r.animating
  {
    if c.timerPending then c.(animating := false, timerPending := false) else c
  }

  predicate PrevDisabled(c: Carousel) {
    c.index == 0 || c.animating
  }

  predicate NextDisabled(c: Carousel)
    requires c.itemsPerView > 0
  {
    c.index >= TotalSlides(c.itemsPerView) - 1 || c.animating
  }

  /** `nextSlide`: forward one slide unless on the last slide or locked. */
  function Next(c: Carousel): (r: Carousel)
    requires c.itemsPerView > 0
    ensures NextDisabled(c) ==> r == c
    ensures !NextDisabled(c) ==> r == Carousel(c.index + 1, true, c.itemsPerView, true)
  {
    if c.index < TotalSlides(c.itemsPerView) - 1 && !c.animating then
      Carousel(c.index + 1, true, c.itemsPerView, true)
    else c
  }

  /** `prevSlide`: back one slide unless on the first slide or locked. */
  function Prev(c: Carousel): (r: Carousel)
    ensures PrevDisabled(c) ==> r == c
    ensures c.index >= 0 && !PrevDisabled(c) ==> r == Carousel(c.index - 1, true, c.itemsPerView, true)
  {
    if c.index > 0 && !c.animating then Carousel(c.index - 1, true, c.itemsPerView, true) else c
  }

  /** `goToSlide` as written: when unlocked it locks and jumps to slide `i`;
      the effect re-arms the timer only if the index actually changed. */
  function GoToAsWritten(c: Carousel, i: int): (r: Carousel)
    ensures c.animating ==> r == c
    ensures !c.animating ==> r.index == i && r.animating && r.itemsPerView == c.itemsPerView
    ensures !c.animating ==> r.timerPending == (c.timerPending || i != c.index)
    ensures !c.animating && !c.timerPending && i == c.index ==> Locked(r)
    ensures Valid(c) && 0 <= i < TotalSlides(c.itemsPerView) && i != c.index ==> Valid(r)
  {
    if !c.animating then
      Carousel(i, true, c.itemsPerView, c.timerPending || i != c.index)
    else c
  }

  /** `goToSlide` corrected: a click on the current slide's dot is ignored, so
      the lock is only taken when the index moves and a timer is armed. */
  function GoTo(c: Carousel, i: int): (r: Carousel)
    ensures c.animating || i == c.index ==> r == c
    ensures !c.animating && i != c.index ==> r == Carousel(i, true, c.itemsPerView, true)
    ensures Locked(r) ==> Locked(c)
    ensures Valid(c) && 0 <= i < TotalSlides(c.itemsPerView) ==> Valid(r)
  {
    if !c.animating && i != c.index then Carousel(i, true, c.itemsPerView, true) else c
  }

  /** A resize as written: only `itemsPerView` changes; the index stays. An
      index past the new last slide then names no slide, and the grid is empty. */
  function ResizeAsWritten(c: Carousel, width: int): (r: Carousel)
    ensures r.index == c.index && r.animating == c.animating && r.timerPending == c.timerPending
    ensures r.itemsPerView == ItemsPerView(width)
    ensures c.index >= TotalSlides(r.itemsPerView) ==> Visible(r) == []
    ensures Valid(c) && c.index < TotalSlides(r.itemsPerView) ==> Valid(r)
  {
    var r := c.(itemsPerView := ItemsPerView(width));
    PastLastSlideIsEmpty(Cards(), r);
    r
  }

  /** A slide at or past `TotalSlides` starts at or past the sixth card. */
  lemma PastLastSlideIsEmpty<T>(cards: seq<T>, c: Carousel)
    requires |cards| == 6 && 1 <= c.itemsPerView <= 3
    ensures c.index >= TotalSlides(c.itemsPerView) ==> Slide(cards, c) == []
  {
    var n := c.itemsPerView;
    if c.index >= TotalSlides(n) {
      SlideCounts();
      assert c.index * n >= 6 by {
        if n == 1 { } else if n == 2 { } else { }
      }
    }
  }

  /** A resize corrected: the index is clamped to the new last slide, and a
      moved index re-runs the effect, arming a timer. */
  function Resize(c: Carousel, width: int): (r: Carousel)
    ensures r.itemsPerView == ItemsPerView(width) && r.animating == c.animating
    ensures c.index <= TotalSlides(r.itemsPerView) - 1 ==> r == ResizeAsWritten(c, width)
    ensures c.index > TotalSlides(r.itemsPerView) - 1 ==>
      r.index == TotalSlides(r.itemsPerView) - 1 && r.timerPending
    ensures Valid(c) ==> Valid(r) && |Visible(r)| == r.itemsPerView
  {
    var n := ItemsPerView(width);
    var last := TotalSlides(n) - 1;
    if c.index > last then Carousel(last, c.animating, n, true)
    else c.(itemsPerView := n)
  }

  /** The states the corrected carousel can be in: a known layout, an index
      naming a slide, and a lock that some armed timer will release. */
  predicate Valid(c: Carousel) {
    && 1 <= c.itemsPerView <= 3
    && 0 <= c.index < TotalSlides(c.itemsPerView)
    && (c.animating ==> c.timerPending)
  }

  /** The cards of a list on the current slide: `products.slice(start,
      start + itemsPerView)` with `start = currentIndex * itemsPerView`. */
  function Slide<T>(cards: seq<T>, c: Carousel): (r: seq<T>)
    ensures c.index >= 0 && c.itemsPerView >= 0 ==> |r| <= c.itemsPerView
    ensures c.index >= 0 && c.itemsPerView >= 0 ==>
      forall k :: 0 <= k < |r| ==>
        0 <= c.index * c.itemsPerView + k < |cards| && r[k] == cards[c.index * c.itemsPerView + k]
  {
    var start := c.index * c.itemsPerView;
    JsArray.Slice(cards, start, start + c.itemsPerView)
  }

  /** The cards the carousel shows: in a valid state a full slide. */
  function Visible(c: Carousel): (r: seq<Card>)
    ensures Valid(c) ==> |r| == c.itemsPerView
  {
    if Valid(c) then
      ValidSlideIsFull(Cards(), c);
      Slide(Cards(), c)
    else Slide(Cards(), c)
  }

  /** In a valid state the current slide of six cards is full: exactly
      `itemsPerView` consecutive cards, starting at card `index * itemsPerView`. */
  lemma ValidSlideIsFull<T>(cards: seq<T>, c: Carousel)
    requires |cards| == 6 && Valid(c)
    ensures |Slide(cards, c)| == c.itemsPerView
    ensures forall k :: 0 <= k < |Slide(cards, c)| ==>
      Slide(cards, c)[k] == cards[c.index * c.itemsPerView + k]
  {
    var n := c.itemsPerView;
    var start := c.index * n;
    assert 0 <= start && start + n <= 6 by {
      SlideCounts();
      if n == 1 { } else if n == 2 { } else { }
    }
    assert Slide(cards, c) == JsArray.Slice(cards, start, start + n);
  }

  /** Every card is on exactly one slide: card `k` is at position `k % n` of
      slide `k / n`. */
  lemma EveryCardOnOneSlide<T>(cards: seq<T>, c: Carousel, k: int)
    requires |cards| == 6 && Valid(c) && 0 <= k < 6
    ensures 0 <= k / c.itemsPerView < TotalSlides(c.itemsPerView)
    ensures var s := c.(index := k / c.itemsPerView);
      Valid(s) && Slide(cards, s)[k % c.itemsPerView] == cards[k]
    ensures c.index * c.itemsPerView <= k < c.index * c.itemsPerView + c.itemsPerView
      <==> k / c.itemsPerView == c.index
  {
    var n := c.itemsPerView;
    var s := c.(index := k / n);
    assert k == (k / n) * n + k % n;
    assert 0 <= k / n < TotalSlides(n) by { SlideCounts(); }
    JsMath.QuotientUnique(k, n, c.index);
    ValidSlideIsFull(cards, s);
  }

  /** The events of the corrected carousel. */
  datatype Event = NextClick | PrevClick | DotClick(i: int) | WindowResize(width: int) | Timer

  /** The dots: one per slide, shown only when there is more than one slide. */
  predicate DotsShown(c: Carousel)
    requires c.itemsPerView > 0
  {
    TotalSlides(c.itemsPerView) > 1
  }

  predicate DotHighlighted(c: Carousel, i: int) {
    c.index == i
  }

  /** One step of the corrected carousel. A dot can only be clicked when the
      dots are shown and the dot exists. */
  function Step(c: Carousel, e: Event): (r: Carousel)
    requires Valid(c)
    ensures Valid(r)
  {
    match e
    case NextClick => Next(c)
    case PrevClick => Prev(c)
    case DotClick(i) => if DotsShown(c) && 0 <= i < TotalSlides(c.itemsPerView) then GoTo(c, i) else c
    case WindowResize(w) => Resize(c, w)
    case Timer => TimerFires(c)
  }

  /** With six cards the dots are always shown, and exactly one is highlighted. */
  lemma OneDotHighlighted(c: Carousel)
    requires Valid(c)
    ensures DotsShown(c)
    ensures forall i :: 0 <= i < TotalSlides(c.itemsPerView) ==> (DotHighlighted(c, i) <==> i == c.index)
    ensures exists i :: 0 <= i < TotalSlides(c.itemsPerView) && DotHighlighted(c, i)
  {
    SlideCounts();
    assert DotHighlighted(c, c.index);
  }

  /** The disabled states of the buttons are exactly the states in which the
      handlers do nothing. */
  lemma ButtonsMatchHandlers(c: Carousel)
    requires Valid(c)
    ensures NextDisabled(c) <==> Next(c) == c
    ensures PrevDisabled(c) <==> Prev(c) == c
  {
  }

  /** In a valid state the lock never outlives the armed timer: once the
      timer runs, the carousel is unlocked. */
  lemma LockReleasedByTimer(c: Carousel)
    requires Valid(c)
    ensures !TimerFires(c).animating
  {
  }

  // ---- Finding: clicking the highlighted dot locks the carousel for good ----

  /** The state of a freshly mounted carousel after the mount timer ran. */
  function Idle(width: int): Carousel {
    TimerFires(Mount(width))
  }

  /** A state with the lock taken and no timer armed: as written, nothing
      can leave it. */
  predicate Locked(c: Carousel) {
    c.animating && !c.timerPending
  }

  /** The carousel as written, with the original `goToSlide` and resize. */
  function StepAsWritten(c: Carousel, e: Event): Carousel
    requires c.itemsPerView > 0
  {
    match e
    case NextClick => Next(c)
    case PrevClick => Prev(c)
    case DotClick(i) => if DotsShown(c) && 0 <= i < TotalSlides(c.itemsPerView) then GoToAsWritten(c, i) else c
    case WindowResize(w) => ResizeAsWritten(c, w)
    case Timer => TimerFires(c)
  }

  function RunAsWritten(c: Carousel, events: seq<Event>): Carousel
    requires c.itemsPerView > 0
    decreases |events|
  {
    if |events| == 0 then c
    else
      var d := StepAsWritten(c, events[0]);
      assert d.itemsPerView > 0;
      RunAsWritten(d, events[1..])
  }

  /** Clicking the highlighted dot of an idle carousel takes the lock without
      moving the index, so the effect never re-arms a timer. */
  lemma CurrentDotLocksCarousel(width: int)
    ensures Valid(Idle(width)) && DotHighlighted(Idle(width), 0)
    ensures Locked(StepAsWritten(Idle(width), DotClick(0)))
    ensures !Valid(StepAsWritten(Idle(width), DotClick(0)))
  {
    SlideCounts();
  }

  /** From a locked state, every sequence of events leaves the carousel locked
      on the same slide: prev, next and the dots stay dead. */
  lemma {:induction false} LockedForever(c: Carousel, events: seq<Event>)
    requires c.itemsPerView > 0 && Locked(c)
    ensures Locked(RunAsWritten(c, events)) && RunAsWritten(c, events).index == c.index
    decreases |events|
  {
    if |events| > 0 {
      var d := StepAsWritten(c, events[0]);
      assert Locked(d) && d.index == c.index && d.itemsPerView > 0;
      LockedForever(d, events[1..]);
    }
  }

  /** The corrected `GoTo` ignores that click: the idle carousel stays idle. */
  lemma CurrentDotIgnored(width: int)
    ensures Step(Idle(width), DotClick(0)) == Idle(width)
  {
    SlideCounts();
  }

  // ---- Finding: a widening resize can leave the carousel on an empty slide ----

  /** On a phone, stepping to the last of six slides, then widening the
      window to 1280 px, leaves the index at 5 of only 2 slides: as written
      the grid renders no cards and no dot is highlighted. */
  lemma WideningResizeEmptiesSlide<T>(cards: seq<T>)
    requires |cards| == 6
    ensures var phoneLast := Carousel(5, false, 1, false);
      var wide := ResizeAsWritten(phoneLast, 1280);
      && Valid(phoneLast)
      && Slide(cards, wide) == []
      && forall i :: 0 <= i < TotalSlides(wide.itemsPerView) ==> !DotHighlighted(wide, i)
  {
    SlideCounts();
  }

  /** The corrected resize moves to the last slide, which is full. */
  lemma ResizeKeepsSlideFull<T>(cards: seq<T>, c: Carousel, width: int)
    requires |cards| == 6 && Valid(c)
    ensures Valid(Resize(c, width))
    ensures |Slide(cards, Resize(c, width))| == ItemsPerView(width)
  {
    ValidSlideIsFull(cards, Resize(c, width));
  }

  // ---- Likes ----

  function OtherThan(id: int): int -> bool {
    x => x != id
  }

  /** `toggleLike`: drop every copy of `id` if it is liked, else append it. */
  function ToggleLike(liked: seq<int>, id: int): (r: seq<int>)
    ensures id in r <==> id !in liked
  {
    if id in liked then
      JsArray.FilterSpec(liked, OtherThan(id));
      JsArray.Filter(liked, OtherThan(id))
    else liked + [id]
  }

  /** Toggling flips whether `id` is liked and leaves every other id's
      membership alone. */
  lemma ToggleFlipsOnlyThatId(liked: seq<int>, id: int, other: int)
    requires other != id
    ensures id in ToggleLike(liked, id) <==> id !in liked
    ensures other in ToggleLike(liked, id) <==> other in liked
  {
    JsArray.FilterSpec(liked, OtherThan(id));
  }

  /** Liking and then unliking a card that was not liked restores the list exactly. */
  lemma LikeThenUnlike(liked: seq<int>, id: int)
    requires id !in liked
    ensures ToggleLike(ToggleLike(liked, id), id) == liked
  {
    JsArray.FilterConcat(liked, [id], OtherThan(id));
    JsArray.FilterAll(liked, OtherThan(id));
    assert JsArray.Filter([id], OtherThan(id)) == [];
  }

  /** The fields `handleAddToCart` passes to `addToCart`. */
  function CardInfo(card: Card): CartStore.ItemInfo {
    CartStore.ItemInfo(card.id, card.name, card.price, card.image, Options.None)
  }

  /** "Add to Cart" on a visible card adds one unit of that card. */
  function AddCard(s: CartStore.CartState, c: Carousel, k: int): (r: CartStore.CartState)
    requires 0 <= k < |Visible(c)|
    ensures r.totalItems == s.totalItems + 1
    ensures r.totalPrice == s.totalPrice + Visible(c)[k].price
    ensures CartStore.HasId(r.items, Visible(c)[k].id)
  {
    CartStore.AddToCart(s, CardInfo(Visible(c)[k]))
  }

  /** Because the cards copy the catalog, adding a card is adding the catalog
      product at the same position: the hand-off the other pages make. */
  lemma AddCardIsCatalogAdd(s: CartStore.CartState, c: Carousel, k: int)
    requires Valid(c) && 0 <= k < c.itemsPerView
    ensures 0 <= c.index * c.itemsPerView + k < 6
    ensures AddCard(s, c, k) == Storefront.AddProduct(s, Catalog.TopSellingProducts()[c.index * c.itemsPerView + k])
  {
    ValidSlideIsFull(Cards(), c);
    CardsAgreeWithCatalog();
  }
}
