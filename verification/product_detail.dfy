/** The product overlay: the quantity stepper bounded by the stock, the
    disabled states of its buttons, the low-stock marker, the discount badge
    and the add-to-cart hand-off. */
module ProductDetail {
  import opened Options
  import JsMath
  import Catalog
  import CartStore

  /** The stepper's quantity when the overlay opens. */
  const InitialQuantity := 1

  /** `handleQuantityChange(amount)`: the new quantity is taken only if it lies in `[1, stock]`. */
  function ChangeQuantity(quantity: int, stock: int, amount: int): (r: int)
    ensures 1 <= quantity + amount <= stock ==> r == quantity + amount
    ensures !(1 <= quantity + amount <= stock) ==> r == quantity
    ensures 1 <= quantity <= stock ==> 1 <= r <= stock
  {
    var next := quantity + amount;
    if next >= 1 && next <= stock then next else quantity
  }

  /** The stepper after a sequence of button presses. */
  function ApplyChanges(quantity: int, stock: int, amounts: seq<int>): int
    decreases |amounts|
  {
    if |amounts| == 0 then quantity
    else ApplyChanges(ChangeQuantity(quantity, stock, amounts[0]), stock, amounts[1..])
  }

  /** A quantity in `[1, stock]` stays there whatever the presses. */
  lemma {:induction false} ChangesKeepRange(quantity: int, stock: int, amounts: seq<int>)
    requires 1 <= quantity <= stock
    ensures 1 <= ApplyChanges(quantity, stock, amounts) <= stock
    decreases |amounts|
  {
    if |amounts| > 0 {
      ChangesKeepRange(ChangeQuantity(quantity, stock, amounts[0]), stock, amounts[1..]);
    }
  }

  /** With at least one unit in stock, the stepper starts at 1 and stays in `[1, stock]`. */
  lemma StepperStaysInRange(stock: int, amounts: seq<int>)
    requires stock >= 1
    ensures 1 <= ApplyChanges(InitialQuantity, stock, amounts) <= stock
  {
    ChangesKeepRange(InitialQuantity, stock, amounts);
  }

  predicate MinusDisabled(quantity: int) {
    quantity <= 1
  }

  predicate PlusDisabled(quantity: int, stock: int) {
    quantity >= stock
  }

  /** Inside the range, a button is disabled exactly when pressing it would change nothing. */
  lemma ButtonsMatchGuard(quantity: int, stock: int)
    requires 1 <= quantity <= stock
    ensures MinusDisabled(quantity) <==> ChangeQuantity(quantity, stock, -1) == quantity
    ensures PlusDisabled(quantity, stock) <==> ChangeQuantity(quantity, stock, 1) == quantity
  {
  }

  /** The "Only n left" marker. */
  predicate ShowsLowStock(stock: int) {
    stock <= 5
  }

  /** Over the seed catalog the marker shows for the Fiddle Leaf Fig (5 left)
      and the Philodendron Pink Princess (3 left) only. */
  lemma LowStockInCatalog()
    ensures forall k :: 0 <= k < |Catalog.Products| ==>
      (ShowsLowStock(Catalog.Products[k].stock) <==> Catalog.Products[k].id == 4 || Catalog.Products[k].id == 9)
  {
  }

  /** The "% OFF" badge: shown only for a present, nonzero `oldPrice` (zero is
      falsy in the source's guard), with `Math.round` of the saving in percent. */
  function DiscountPercent(price: int, oldPrice: Option<int>): (r: Option<int>)
    ensures r.Some? <==> oldPrice.Some? && oldPrice.value != 0
    ensures r.Some? && oldPrice.value > 0 ==>
      var o := oldPrice.value;
      2 * r.value * o - o <= 200 * (o - price) < 2 * r.value * o + o
  {
    match oldPrice
    case None => None
    case Some(o) => if o == 0 then None else Some(JsMath.RoundDiv(100 * (o - price), o))
  }

  /** A product with a positive factor keeps the other factor's sign. */
  lemma NonNegativeFactor(a: int, o: int)
    requires o > 0 && a * o >= 0
    ensures a >= 0
  {
  }

  /** A price between 0 and the old price gives a discount between 0 and 100 percent. */
  lemma DiscountInRange(price: int, oldPrice: int)
    requires 0 <= price <= oldPrice && oldPrice > 0
    ensures DiscountPercent(price, Some(oldPrice)).Some?
    ensures 0 <= DiscountPercent(price, Some(oldPrice)).value <= 100
  {
    var o := oldPrice;
    var r := DiscountPercent(price, Some(o)).value;
    var n := 200 * (o - price);
    assert 0 <= n <= 200 * o;
    assert 2 * r * o - o <= n < 2 * r * o + o;
    assert (2 * r + 1) * o == 2 * r * o + o;
    NonNegativeFactor(2 * r + 1, o);
    assert (201 - 2 * r) * o == 200 * o - (2 * r * o - o);
    NonNegativeFactor(201 - 2 * r, o);
  }

  /** The seed catalog's badges: 13% off the Monstera, 16% off the Fiddle Leaf
      Fig and 20% off the Pink Princess; every other plant has no badge. */
  lemma CatalogDiscounts()
    ensures DiscountPercent(1299, Some(1499)) == Some(13)
    ensures DiscountPercent(1599, Some(1899)) == Some(16)
    ensures DiscountPercent(1999, Some(2499)) == Some(20)
    ensures forall k :: 0 <= k < |Catalog.Products| && Catalog.Products[k].id !in {1, 4, 9} ==>
      DiscountPercent(Catalog.Products[k].price, Catalog.Products[k].oldPrice) == None
  {
  }

  /** `handleAddToCart`: hands the stepper's quantity over, which `addToCart` then replaces by 1. */
  function HandleAddToCart(s: CartStore.CartState, product: Catalog.Product, quantity: int): (r: CartStore.CartState)
    ensures r.totalItems == s.totalItems + 1
    ensures r.totalPrice == s.totalPrice + product.price
  {
    CartStore.AddToCart(s, CartStore.ItemInfo(product.id, product.name, product.price, product.image, Some(quantity)))
  }

  /** Choosing 5 on the stepper and pressing "Add to Cart" adds the same single
      unit as choosing 1. */
  lemma SelectedQuantityIsDropped(s: CartStore.CartState, product: Catalog.Product, quantity: int)
    ensures HandleAddToCart(s, product, quantity) == HandleAddToCart(s, product, 1)
  {
  }
}
