/** How the pages feed the cart: every product card (top sellers, trendy
    plants, search results, the product overlay) adds a catalog product, and
    the cart panel updates, removes and clears. Over any such session the
    cart stays well formed, because the catalog gives each id one price. */
module Storefront {
  import opened Options
  import Catalog
  import CartStore
  import CartPanel
  import JsArray

  /** The fields a product card passes to `addToCart`. */
  function ProductInfo(p: Catalog.Product): CartStore.ItemInfo {
    CartStore.ItemInfo(p.id, p.name, p.price, p.image, None)
  }

  /** A card's "add to cart": one unit of the product; a new line carries the
      product's id, name, price and image. */
  function AddProduct(s: CartStore.CartState, p: Catalog.Product): (r: CartStore.CartState)
    ensures r.totalItems == s.totalItems + 1
    ensures r.totalPrice == s.totalPrice + p.price
    ensures CartStore.HasId(r.items, p.id)
    ensures !CartStore.HasId(s.items, p.id) ==>
      r.items == s.items + [CartStore.CartItem(p.id, p.name, p.price, p.image, 1)]
    ensures CartPanel.QuantitiesPositive(s.items) ==> CartPanel.QuantitiesPositive(r.items)
  {
    if CartPanel.QuantitiesPositive(s.items) then
      CartPanel.AddToCartKeepsPositive(s, ProductInfo(p));
      CartStore.AddToCart(s, ProductInfo(p))
    else CartStore.AddToCart(s, ProductInfo(p))
  }

  /** The price the catalog gives an id (0 for an id it does not have). */
  function CatalogPrice(id: int): int {
    if 1 <= id <= |Catalog.Products| then Catalog.Products[id - 1].price else 0
  }

  /** Every line carries the price `priceOf` gives its id. */
  predicate PricedBy(items: seq<CartStore.CartItem>, priceOf: int -> int) {
    forall k :: 0 <= k < |items| ==> items[k].price == priceOf(items[k].id)
  }

  /** An add carries the price `priceOf` gives its id; other actions always qualify. */
  predicate AddsAt(a: CartStore.CartAction, priceOf: int -> int) {
    a.AddItem? ==> a.payload.price == priceOf(a.payload.id)
  }

  /** An action the pages can dispatch: adds carry a catalog id at its catalog price. */
  predicate FromPages(a: CartStore.CartAction) {
    (a.AddItem? ==> 1 <= a.payload.id <= 12) && AddsAt(a, CatalogPrice)
  }

  /** Adding a catalog product is such an action. */
  lemma AddProductIsFromPages(s: CartStore.CartState, p: Catalog.Product)
    requires p in Catalog.Products
    ensures FromPages(CartStore.AddItem(CartStore.AddToCartPayload(ProductInfo(p))))
    ensures AddProduct(s, p) == CartStore.Reduce(s, CartStore.AddItem(CartStore.AddToCartPayload(ProductInfo(p))))
  {
    Catalog.CatalogIds();
    var k :| 0 <= k < |Catalog.Products| && Catalog.Products[k] == p;
  }

  /** Actions that add at a fixed price per id keep every line at that price,
      and so always meet the reducer's price precondition. */
  lemma PricedActionsKeepPrices(s: CartStore.CartState, a: CartStore.CartAction, priceOf: int -> int)
    requires PricedBy(s.items, priceOf) && AddsAt(a, priceOf)
    ensures CartStore.PriceAgrees(s, a)
    ensures PricedBy(CartStore.Reduce(s, a).items, priceOf)
  {
    match a
    case AddItem(p) =>
    case RemoveItem(id) =>
      JsArray.FilterSpec(s.items, CartStore.OtherThan(id));
    case UpdateQuantity(id, q) =>
    case ClearCart =>
  }

  /** The cart after a sequence of actions. */
  function Run(s: CartStore.CartState, actions: seq<CartStore.CartAction>): CartStore.CartState
    decreases |actions|
  {
    if |actions| == 0 then s else Run(CartStore.Reduce(s, actions[0]), actions[1..])
  }

  predicate AllAddAt(actions: seq<CartStore.CartAction>, priceOf: int -> int) {
    forall k :: 0 <= k < |actions| ==> AddsAt(actions[k], priceOf)
  }

  lemma {:induction false} RunKeepsInvariant(s: CartStore.CartState, actions: seq<CartStore.CartAction>, priceOf: int -> int)
    requires CartStore.WellFormed(s) && PricedBy(s.items, priceOf)
    requires AllAddAt(actions, priceOf)
    ensures CartStore.WellFormed(Run(s, actions)) && PricedBy(Run(s, actions).items, priceOf)
    decreases |actions|
  {
    if |actions| > 0 {
      PricedActionsKeepPrices(s, actions[0], priceOf);
      CartStore.ReducePreservesWellFormed(s, actions[0]);
      assert AllAddAt(actions[1..], priceOf) by {
        forall k | 0 <= k < |actions| - 1 ensures AddsAt(actions[1..][k], priceOf) {
          assert actions[1..][k] == actions[k + 1];
        }
      }
      RunKeepsInvariant(CartStore.Reduce(s, actions[0]), actions[1..], priceOf);
    }
  }

  predicate AllFromPages(actions: seq<CartStore.CartAction>) {
    forall k :: 0 <= k < |actions| ==> FromPages(actions[k])
  }

  /** From the empty cart, any session of page actions leaves `totalItems`
      equal to the sum of the quantities, `totalPrice` equal to the sum of
      price times quantity, and at most one line per id. */
  lemma SessionStaysWellFormed(actions: seq<CartStore.CartAction>)
    requires AllFromPages(actions)
    ensures CartStore.WellFormed(Run(CartStore.InitialCartState, actions))
  {
    assert AllAddAt(actions, CatalogPrice) by {
      forall k | 0 <= k < |actions| ensures AddsAt(actions[k], CatalogPrice) {
        assert FromPages(actions[k]);
      }
    }
    RunKeepsInvariant(CartStore.InitialCartState, actions, CatalogPrice);
  }

  // ---- Sessions mixing the pages' adds with the cart panel's buttons ----

  /** What a shopper can do: add a card's item from a page, or press a button
      of the cart panel. A button that is not on screen cannot be pressed, so
      pressing it changes nothing. */
  datatype ShopEvent = CardAdd(info: CartStore.ItemInfo) | PanelPress(b: CartPanel.PanelButton)

  function ApplyEvent(s: CartStore.CartState, e: ShopEvent): CartStore.CartState {
    match e
    case CardAdd(info) => CartStore.AddToCart(s, info)
    case PanelPress(b) => if CartPanel.OnScreen(s, b) then CartPanel.Press(s, b) else s
  }

  function Shop(s: CartStore.CartState, events: seq<ShopEvent>): CartStore.CartState
    decreases |events|
  {
    if |events| == 0 then s else Shop(ApplyEvent(s, events[0]), events[1..])
  }

  /** The cart invariant of a shopping session: totals equal the sums, one
      line per id, every line at its table price, and every quantity at least 1. */
  predicate Shoppable(s: CartStore.CartState, priceOf: int -> int) {
    CartStore.WellFormed(s) && PricedBy(s.items, priceOf) && CartPanel.QuantitiesPositive(s.items)
  }

  predicate CardAddsAt(e: ShopEvent, priceOf: int -> int) {
    e.CardAdd? ==> e.info.price == priceOf(e.info.id)
  }

  /** One event keeps the session invariant. */
  lemma EventKeepsShoppable(s: CartStore.CartState, e: ShopEvent, priceOf: int -> int)
    requires Shoppable(s, priceOf) && CardAddsAt(e, priceOf)
    ensures Shoppable(ApplyEvent(s, e), priceOf)
  {
    match e
    case CardAdd(info) =>
      var a := CartStore.AddItem(CartStore.AddToCartPayload(info));
      CartStore.AddToCartIgnoresQuantity(s, info, info.quantity);
      PricedActionsKeepPrices(s, a, priceOf);
      CartStore.ReducePreservesWellFormed(s, a);
      CartPanel.AddToCartKeepsPositive(s, info);
    case PanelPress(b) =>
      if CartPanel.OnScreen(s, b) {
        CartPanel.PanelKeepsQuantitiesPositive(s, b);
        PricedActionsKeepPrices(s, CartPanel.ButtonAction(b), priceOf);
      }
  }

  predicate AllCardAddsAt(events: seq<ShopEvent>, priceOf: int -> int) {
    forall k :: 0 <= k < |events| ==> CardAddsAt(events[k], priceOf)
  }

  lemma {:induction false} ShopKeepsShoppable(s: CartStore.CartState, events: seq<ShopEvent>, priceOf: int -> int)
    requires Shoppable(s, priceOf) && AllCardAddsAt(events, priceOf)
    ensures Shoppable(Shop(s, events), priceOf)
    decreases |events|
  {
    if |events| > 0 {
      EventKeepsShoppable(s, events[0], priceOf);
      assert AllCardAddsAt(events[1..], priceOf) by {
        forall k | 0 <= k < |events| - 1 ensures CardAddsAt(events[1..][k], priceOf) {
          assert events[1..][k] == events[k + 1];
        }
      }
      ShopKeepsShoppable(ApplyEvent(s, events[0]), events[1..], priceOf);
    }
  }

  /** Every page add in the session carries a catalog id at its catalog price. */
  predicate AllCardsFromCatalog(events: seq<ShopEvent>) {
    forall k :: 0 <= k < |events| ==>
      events[k].CardAdd? ==> FromPages(CartStore.AddItem(CartStore.AddToCartPayload(events[k].info)))
  }

  /** From the empty cart, any session of catalog adds and on-screen panel
      presses keeps the totals equal to the sums, one line per id, and every
      quantity at least 1. */
  lemma ShopSessionKeepsCart(events: seq<ShopEvent>)
    requires AllCardsFromCatalog(events)
    ensures CartStore.WellFormed(Shop(CartStore.InitialCartState, events))
    ensures CartPanel.QuantitiesPositive(Shop(CartStore.InitialCartState, events).items)
  {
    assert AllCardAddsAt(events, CatalogPrice) by {
      forall k | 0 <= k < |events| ensures CardAddsAt(events[k], CatalogPrice) {
        if events[k].CardAdd? {
          assert FromPages(CartStore.AddItem(CartStore.AddToCartPayload(events[k].info)));
        }
      }
    }
    ShopKeepsShoppable(CartStore.InitialCartState, events, CatalogPrice);
  }
}
