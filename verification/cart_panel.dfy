/** The slide-over cart panel: the shipping fee and grand total shown in its
    footer, and the actions its buttons dispatch into the cart store. */
module CartPanel {
  import opened CartStore
  import JsArray

  /** Subtotals from this amount up ship free. */
  const FreeShippingFrom := 999
  const ShippingCharge := 99

  function ShippingFee(subtotal: int): (fee: int)
    ensures fee == 0 <==> subtotal >= FreeShippingFrom
    ensures fee == 0 || fee == ShippingCharge
  {
    if subtotal >= FreeShippingFrom then 0 else ShippingCharge
  }

  /** The footer's total: never below the subtotal, and equal to it exactly when shipping is free. */
  function GrandTotal(subtotal: int): (total: int)
    ensures subtotal <= total <= subtotal + ShippingCharge
    ensures total == subtotal <==> subtotal >= FreeShippingFrom
    ensures total == subtotal + ShippingFee(subtotal)
  {
    subtotal + (if subtotal >= FreeShippingFrom then 0 else 99)
  }

  /** The free-shipping bound is inclusive: 998 pays 1097 in all, 999 pays 999. */
  lemma ShippingBoundary()
    ensures GrandTotal(998) == 1097 && GrandTotal(999) == 999
  {
  }

  /** The buttons of the panel: minus, plus and trash on a line, and "Clear Cart". */
  datatype PanelButton = Decrease(item: CartItem) | Increase(item: CartItem) | Trash(item: CartItem) | ClearButton

  /** The clear button and the checkout footer are shown only for a non-empty cart. */
  predicate ShowsFooter(s: CartState) {
    |s.items| > 0
  }

  /** A button can be pressed only if it is on screen: line buttons for lines of the cart. */
  predicate OnScreen(s: CartState, b: PanelButton) {
    if b.ClearButton? then ShowsFooter(s) else b.item in s.items
  }

  /** What each button dispatches; minus on a line of quantity 1 (or less) removes the line. */
  function ButtonAction(b: PanelButton): (a: CartAction)
    ensures b.Decrease? ==> (a.RemoveItem? <==> b.item.quantity <= 1)
    ensures !b.ClearButton? ==> !a.AddItem? && !a.ClearCart?
    ensures b.Increase? ==> a.UpdateQuantity? && a.quantity > b.item.quantity
  {
    match b
    case Decrease(item) =>
      if item.quantity > 1 then UpdateQuantity(item.id, item.quantity - 1) else RemoveItem(item.id)
    case Increase(item) => UpdateQuantity(item.id, item.quantity + 1)
    case Trash(item) => RemoveItem(item.id)
    case ClearButton => ClearCart
  }

  function Press(s: CartState, b: PanelButton): CartState {
    Reduce(s, ButtonAction(b))
  }

  predicate QuantitiesPositive(items: seq<CartItem>) {
    forall k :: 0 <= k < |items| ==> items[k].quantity >= 1
  }

  /** `addToCart` adds one unit, so it never makes a quantity less than 1. */
  lemma AddToCartKeepsPositive(s: CartState, info: ItemInfo)
    requires QuantitiesPositive(s.items)
    ensures QuantitiesPositive(AddToCart(s, info).items)
  {
    var p := AddToCartPayload(info);
    AddToCartIgnoresQuantity(s, info, info.quantity);
    if HasId(s.items, p.id) {
      AddExistingLine(s, p);
    } else {
      AddNewLine(s, p);
    }
  }

  /** In a cart with unique ids, a line's id finds that very line. */
  lemma LineOfItem(s: CartState, item: CartItem) returns (i: int)
    requires UniqueIds(s.items) && item in s.items
    ensures 0 <= i < |s.items| && s.items[i] == item
    ensures HasId(s.items, item.id) && IndexOfId(s.items, item.id) == i
  {
    i :| 0 <= i < |s.items| && s.items[i] == item;
  }

  /** Removing a present line keeps the other quantities, and well-formedness. */
  lemma RemoveKeepsPositive(s: CartState, id: int)
    requires HasId(s.items, id) && QuantitiesPositive(s.items)
    ensures QuantitiesPositive(Reduce(s, RemoveItem(id)).items)
    ensures WellFormed(s) ==> WellFormed(Reduce(s, RemoveItem(id)))
  {
    RemovePresentLine(s, id);
    var r := Reduce(s, RemoveItem(id)).items;
    forall k | 0 <= k < |r|
      ensures r[k].quantity >= 1
    {
      var j :| 0 <= j < |s.items| && s.items[j] == r[k];
    }
  }

  /** Setting a present line to a positive quantity keeps every quantity positive. */
  lemma UpdateKeepsPositive(s: CartState, id: int, quantity: int)
    requires HasId(s.items, id) && QuantitiesPositive(s.items) && quantity >= 1
    ensures QuantitiesPositive(Reduce(s, UpdateQuantity(id, quantity)).items)
    ensures WellFormed(s) ==> WellFormed(Reduce(s, UpdateQuantity(id, quantity)))
  {
    UpdatePresentLine(s, id, quantity);
  }

  /** No panel button can take a line below quantity 1, and none breaks the
      totals or the one-line-per-id rule. */
  lemma PanelKeepsQuantitiesPositive(s: CartState, b: PanelButton)
    requires UniqueIds(s.items) && QuantitiesPositive(s.items) && OnScreen(s, b)
    ensures QuantitiesPositive(Press(s, b).items)
    ensures WellFormed(s) ==> WellFormed(Press(s, b))
  {
    match b
    case Decrease(item) =>
      var i := LineOfItem(s, item);
      if item.quantity > 1 {
        UpdateKeepsPositive(s, item.id, item.quantity - 1);
      } else {
        RemoveKeepsPositive(s, item.id);
      }
    case Increase(item) =>
      var i := LineOfItem(s, item);
      UpdateKeepsPositive(s, item.id, item.quantity + 1);
    case Trash(item) =>
      var i := LineOfItem(s, item);
      RemoveKeepsPositive(s, item.id);
    case ClearButton =>
  }

  /** Minus on a line of quantity 1 removes the line; minus above 1 lowers it by one. */
  lemma DecreaseRouting(s: CartState, item: CartItem)
    requires UniqueIds(s.items) && item in s.items
    ensures item.quantity <= 1 ==> !HasId(Press(s, Decrease(item)).items, item.id)
    ensures item.quantity > 1 ==>
      var i := IndexOfId(s.items, item.id);
      Press(s, Decrease(item)).items == s.items[i := item.(quantity := item.quantity - 1)]
  {
    var i := LineOfItem(s, item);
    if item.quantity > 1 {
      UpdatePresentLine(s, item.id, item.quantity - 1);
    } else {
      JsArray.FilterSpec(s.items, OtherThan(item.id));
    }
  }

  /** Plus raises the line by one with no stock cap, however large it already is. */
  lemma IncreaseHasNoCap(s: CartState, item: CartItem)
    requires UniqueIds(s.items) && item in s.items
    ensures var i := IndexOfId(s.items, item.id);
      && Press(s, Increase(item)).items[i].quantity == item.quantity + 1
      && Press(s, Increase(item)).totalItems == s.totalItems + 1
  {
    var i := LineOfItem(s, item);
    UpdatePresentLine(s, item.id, item.quantity + 1);
  }

  /** Trash removes that line's id; "Clear Cart" empties the cart and hides the footer. */
  lemma TrashAndClear(s: CartState, item: CartItem)
    ensures !HasId(Press(s, Trash(item)).items, item.id)
    ensures Press(s, ClearButton) == InitialCartState && !ShowsFooter(Press(s, ClearButton))
  {
    JsArray.FilterSpec(s.items, OtherThan(item.id));
  }
}
