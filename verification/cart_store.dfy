/** The cart store: the state `{items, totalItems, totalPrice}`, the reducer
    over the four cart actions, and the dispatch helpers the components call.
    The totals are kept incrementally by each action; the lemmas below show
    that they stay equal to the sums over the items. */
module CartStore {
  import opened Options
  import JsArray

  /** A line of the cart: one product id with the quantity chosen. */
  datatype CartItem = CartItem(id: int, name: string, price: int, image: string, quantity: int)

  datatype CartState = CartState(items: seq<CartItem>, totalItems: int, totalPrice: int)

  datatype CartAction =
    | AddItem(payload: CartItem)
    | RemoveItem(id: int)
    | UpdateQuantity(id: int, quantity: int)
    | ClearCart

  /** The empty cart the provider starts from and `CLEAR_CART` returns to. */
  const InitialCartState := CartState([], 0, 0)

  /** The sum of the quantities of `items`. */
  function SumQuantity(items: seq<CartItem>): int {
    if |items| == 0 then 0 else items[0].quantity + SumQuantity(items[1..])
  }

  /** The sum of price times quantity over `items`. */
  function SumCost(items: seq<CartItem>): int {
    if |items| == 0 then 0 else items[0].price * items[0].quantity + SumCost(items[1..])
  }

  /** The stored totals equal the sums over the items. */
  predicate TotalsMatch(s: CartState) {
    s.totalItems == SumQuantity(s.items) && s.totalPrice == SumCost(s.items)
  }

  /** At most one cart line per product id. */
  predicate UniqueIds(items: seq<CartItem>) {
    forall i, j :: 0 <= i < j < |items| ==> items[i].id != items[j].id
  }

  predicate WellFormed(s: CartState) {
    TotalsMatch(s) && UniqueIds(s.items)
  }

  predicate HasId(items: seq<CartItem>, id: int) {
    exists k :: 0 <= k < |items| && items[k].id == id
  }

  /** `items.findIndex(item => item.id === id)`: the first position holding
      `id`, or -1 when there is none. */
  function IndexOfId(items: seq<CartItem>, id: int): (r: int)
    ensures -1 <= r < |items|
    ensures r >= 0 ==> items[r].id == id && forall j :: 0 <= j < r ==> items[j].id != id
    ensures r == -1 <==> !HasId(items, id)
  {
    if |items| == 0 then -1
    else if items[0].id == id then 0
    else
      var r := IndexOfId(items[1..], id);
      assert forall j :: 0 < j < |items| ==> items[j] == items[1..][j - 1];
      if r == -1 then -1 else r + 1
  }

  /** The filter test `item => item.id !== id`, named so that every use is the same function. */
  function OtherThan(id: int): CartItem -> bool {
    (item: CartItem) => item.id != id
  }

  /** The reducer. An added id already present merges into its line (the
      stored line keeps its price; the totals use the payload's price); an
      absent id for remove or update leaves the state as it is; the quantity
      of an update is taken as given, with no lower bound. */
  function Reduce(s: CartState, a: CartAction): (r: CartState)
    ensures a.AddItem? ==> HasId(r.items, a.payload.id) && |s.items| <= |r.items| <= |s.items| + 1
    ensures a.RemoveItem? ==> !HasId(r.items, a.id) && |r.items| <= |s.items|
    ensures a.UpdateQuantity? ==>
      |r.items| == |s.items| && forall k :: 0 <= k < |s.items| ==> r.items[k].id == s.items[k].id
  {
    match a
    case AddItem(p) =>
      var i := IndexOfId(s.items, p.id);
      if i > -1 then
        var merged := s.items[i := s.items[i].(quantity := s.items[i].quantity + p.quantity)];
        assert merged[i].id == p.id;
        CartState(merged, s.totalItems + p.quantity, s.totalPrice + p.price * p.quantity)
      else
        assert (s.items + [p])[|s.items|] == p;
        CartState(s.items + [p], s.totalItems + p.quantity, s.totalPrice + p.price * p.quantity)
    case RemoveItem(id) =>
      var i := IndexOfId(s.items, id);
      if i == -1 then s
      else
        var gone := s.items[i];
        JsArray.FilterSpec(s.items, OtherThan(id));
        CartState(JsArray.Filter(s.items, OtherThan(id)),
                  s.totalItems - gone.quantity, s.totalPrice - gone.price * gone.quantity)
    case UpdateQuantity(id, quantity) =>
      var i := IndexOfId(s.items, id);
      if i == -1 then s
      else
        var item := s.items[i];
        var diff := quantity - item.quantity;
        CartState(s.items[i := item.(quantity := quantity)],
                  s.totalItems + diff, s.totalPrice + item.price * diff)
    case ClearCart => InitialCartState
  }

  /** An added line whose id is already in the cart carries the stored price.
      The seed catalogs give each id one price, so every add from the pages
      meets this (see the storefront module). */
  predicate PriceAgrees(s: CartState, a: CartAction) {
    a.AddItem? ==>
      forall k :: 0 <= k < |s.items| && s.items[k].id == a.payload.id ==> s.items[k].price == a.payload.price
  }

  lemma {:induction false} SumsConcat(a: seq<CartItem>, b: seq<CartItem>)
    ensures SumQuantity(a + b) == SumQuantity(a) + SumQuantity(b)
    ensures SumCost(a + b) == SumCost(a) + SumCost(b)
  {
    if |a| == 0 {
      assert a + b == b;
    } else {
      SumsConcat(a[1..], b);
      assert (a + b)[1..] == a[1..] + b;
    }
  }

  /** Replacing one line changes the sums by the difference of the two lines. */
  lemma SumsReplace(items: seq<CartItem>, i: int, x: CartItem)
    requires 0 <= i < |items|
    ensures SumQuantity(items[i := x]) == SumQuantity(items) - items[i].quantity + x.quantity
    ensures SumCost(items[i := x]) == SumCost(items) - items[i].price * items[i].quantity + x.price * x.quantity
  {
    assert items == items[..i] + [items[i]] + items[i + 1..];
    assert items[i := x] == items[..i] + [x] + items[i + 1..];
    SumsConcat(items[..i] + [items[i]], items[i + 1..]);
    SumsConcat(items[..i] + [x], items[i + 1..]);
    SumsConcat(items[..i], [items[i]]);
    SumsConcat(items[..i], [x]);
  }

  /** With unique ids, filtering one id out removes exactly its line. */
  lemma RemoveUniqueLine(items: seq<CartItem>, i: int)
    requires UniqueIds(items) && 0 <= i < |items|
    ensures JsArray.Filter(items, OtherThan(items[i].id)) == items[..i] + items[i + 1..]
  {
    var keep := OtherThan(items[i].id);
    forall k | 0 <= k < |items| && k != i
      ensures keep(items[k])
    {
      if k < i { assert items[k].id != items[i].id; } else { assert items[i].id != items[k].id; }
    }
    JsArray.FilterDropsOne(items, i, keep);
  }

  /** Dropping line `i` lowers the sums by that line. */
  lemma DropLineSums(items: seq<CartItem>, i: int)
    requires 0 <= i < |items|
    ensures SumQuantity(items[..i] + items[i + 1..]) == SumQuantity(items) - items[i].quantity
    ensures SumCost(items[..i] + items[i + 1..]) == SumCost(items) - items[i].price * items[i].quantity
  {
    var pre, mid, post := items[..i], [items[i]], items[i + 1..];
    assert items == pre + (mid + post);
    SumsConcat(pre, post);
    SumsConcat(pre, mid + post);
    SumsConcat(mid, post);
    assert SumQuantity(mid) == items[i].quantity && SumCost(mid) == items[i].price * items[i].quantity;
  }

  /** Dropping a line keeps ids unique. */
  lemma DropLineUnique(items: seq<CartItem>, i: int)
    requires 0 <= i < |items| && UniqueIds(items)
    ensures UniqueIds(items[..i] + items[i + 1..])
  {
    var r := items[..i] + items[i + 1..];
    forall a, b | 0 <= a < b < |r|
      ensures r[a].id != r[b].id
    {
      var a', b' := if a < i then a else a + 1, if b < i then b else b + 1;
      assert r[a] == items[a'] && r[b] == items[b'];
    }
  }

  /** Adding an id not in the cart appends the payload as one new line after
      the unchanged earlier lines, and raises the totals by its quantity and cost. */
  lemma AddNewLine(s: CartState, p: CartItem)
    requires !HasId(s.items, p.id)
    ensures var r := Reduce(s, AddItem(p));
      && |r.items| == |s.items| + 1
      && r.items[|s.items|] == p
      && (forall k :: 0 <= k < |s.items| ==> r.items[k] == s.items[k])
      && r.totalItems == s.totalItems + p.quantity
      && r.totalPrice == s.totalPrice + p.price * p.quantity
    ensures WellFormed(s) ==> WellFormed(Reduce(s, AddItem(p)))
  {
    SumsConcat(s.items, [p]);
  }

  /** Adding an id already in the cart keeps the number of lines, raises that
      line's quantity by the payload's and touches nothing else, so ids stay unique. */
  lemma AddExistingLine(s: CartState, p: CartItem)
    requires HasId(s.items, p.id)
    ensures var i := IndexOfId(s.items, p.id);
      var r := Reduce(s, AddItem(p));
      && |r.items| == |s.items|
      && r.items[i] == s.items[i].(quantity := s.items[i].quantity + p.quantity)
      && (forall k :: 0 <= k < |s.items| && k != i ==> r.items[k] == s.items[k])
      && r.totalItems == s.totalItems + p.quantity
      && r.totalPrice == s.totalPrice + p.price * p.quantity
      && (UniqueIds(s.items) ==> UniqueIds(r.items))
    ensures var i := IndexOfId(s.items, p.id);
      WellFormed(s) && s.items[i].price == p.price ==> WellFormed(Reduce(s, AddItem(p)))
  {
    var i := IndexOfId(s.items, p.id);
    SumsReplace(s.items, i, s.items[i].(quantity := s.items[i].quantity + p.quantity));
  }

  /** Removing or updating an id that is not in the cart returns the state unchanged. */
  lemma AbsentIdIsNoOp(s: CartState, id: int, quantity: int)
    requires !HasId(s.items, id)
    ensures Reduce(s, RemoveItem(id)) == s
    ensures Reduce(s, UpdateQuantity(id, quantity)) == s
  {
  }

  /** Removing a present id drops every line with that id and keeps the others
      in order, and subtracts the first such line's quantity and cost. With
      unique ids that is exactly one line, and the cart stays well formed. */
  lemma RemovePresentLine(s: CartState, id: int)
    requires HasId(s.items, id)
    ensures var i := IndexOfId(s.items, id);
      var r := Reduce(s, RemoveItem(id));
      && (forall k :: 0 <= k < |r.items| ==> r.items[k] in s.items && r.items[k].id != id)
      && (forall k :: 0 <= k < |s.items| && s.items[k].id != id ==> s.items[k] in r.items)
      && JsArray.Subsequence(r.items, s.items)
      && r.totalItems == s.totalItems - s.items[i].quantity
      && r.totalPrice == s.totalPrice - s.items[i].price * s.items[i].quantity
    ensures var i := IndexOfId(s.items, id);
      UniqueIds(s.items) ==> Reduce(s, RemoveItem(id)).items == s.items[..i] + s.items[i + 1..]
    ensures WellFormed(s) ==> WellFormed(Reduce(s, RemoveItem(id)))
  {
    JsArray.FilterSpec(s.items, OtherThan(id));
    if UniqueIds(s.items) {
      RemoveUniquePresentLine(s, id);
    }
  }

  /** With unique ids, removing a present id deletes exactly its line and the
      cart stays well formed. */
  lemma RemoveUniquePresentLine(s: CartState, id: int)
    requires HasId(s.items, id) && UniqueIds(s.items)
    ensures var i := IndexOfId(s.items, id);
      Reduce(s, RemoveItem(id)).items == s.items[..i] + s.items[i + 1..]
    ensures WellFormed(s) ==> WellFormed(Reduce(s, RemoveItem(id)))
  {
    var i := IndexOfId(s.items, id);
    RemoveUniqueLine(s.items, i);
    DropLineSums(s.items, i);
    DropLineUnique(s.items, i);
  }

  /** Updating a present id sets the first such line's quantity to the given
      value, whatever it is (zero and negatives included), leaves every other
      line alone and shifts the totals by the change in quantity. */
  lemma UpdatePresentLine(s: CartState, id: int, quantity: int)
    requires HasId(s.items, id)
    ensures var i := IndexOfId(s.items, id);
      var r := Reduce(s, UpdateQuantity(id, quantity));
      && |r.items| == |s.items|
      && r.items[i] == s.items[i].(quantity := quantity)
      && (forall k :: 0 <= k < |s.items| && k != i ==> r.items[k] == s.items[k])
      && r.totalItems == s.totalItems + (quantity - s.items[i].quantity)
      && r.totalPrice == s.totalPrice + s.items[i].price * (quantity - s.items[i].quantity)
    ensures WellFormed(s) ==> WellFormed(Reduce(s, UpdateQuantity(id, quantity)))
  {
    var i := IndexOfId(s.items, id);
    SumsReplace(s.items, i, s.items[i].(quantity := quantity));
  }

  /** Clearing gives the empty cart with zero totals from any state. */
  lemma ClearEmpties(s: CartState)
    ensures Reduce(s, ClearCart) == CartState([], 0, 0)
    ensures WellFormed(Reduce(s, ClearCart))
  {
  }

  /** The reducer keeps the cart well formed: totals equal the sums over the
      items and no id appears twice, provided an add for a present id carries
      the stored price. */
  lemma ReducePreservesWellFormed(s: CartState, a: CartAction)
    requires WellFormed(s) && PriceAgrees(s, a)
    ensures WellFormed(Reduce(s, a))
  {
    match a
    case AddItem(p) =>
      if HasId(s.items, p.id) {
        AddExistingLine(s, p);
      } else {
        AddNewLine(s, p);
      }
    case RemoveItem(id) =>
      if HasId(s.items, id) {
        RemovePresentLine(s, id);
      }
    case UpdateQuantity(id, quantity) =>
      if HasId(s.items, id) {
        UpdatePresentLine(s, id, quantity);
      }
    case ClearCart =>
  }

  /** Without the price precondition the totals drift: a second add of id 1
      at another price counts the new price while the line keeps the old one. */
  lemma PriceMismatchBreaksTotals()
    ensures var s := CartState([CartItem(1, "Fern", 100, "fern.png", 1)], 1, 100);
      var a := AddItem(CartItem(1, "Fern", 200, "fern.png", 1));
      WellFormed(s) && !PriceAgrees(s, a) && !TotalsMatch(Reduce(s, a))
  {
    var s := CartState([CartItem(1, "Fern", 100, "fern.png", 1)], 1, 100);
    var a := AddItem(CartItem(1, "Fern", 200, "fern.png", 1));
    assert IndexOfId(s.items, 1) == 0;
    assert Reduce(s, a).items == [CartItem(1, "Fern", 100, "fern.png", 2)];
  }

  /** What a component hands to `addToCart`. Its declared type leaves out the
      quantity, but a caller may pass one anyway (the product overlay does). */
  datatype ItemInfo = ItemInfo(id: int, name: string, price: int, image: string, quantity: Option<int>)

  /** `{ ...item, quantity: 1 }`: the spread copies the fields and the literal
      quantity then overrides any quantity the caller passed. */
  function AddToCartPayload(info: ItemInfo): CartItem {
    CartItem(info.id, info.name, info.price, info.image, 1)
  }

  /** `addToCart`: one more unit of the item, whether or not its id is already in the cart. */
  function AddToCart(s: CartState, info: ItemInfo): (r: CartState)
    ensures r.totalItems == s.totalItems + 1
    ensures r.totalPrice == s.totalPrice + info.price
    ensures HasId(r.items, info.id)
    ensures |r.items| == if HasId(s.items, info.id) then |s.items| else |s.items| + 1
  {
    var r := Reduce(s, AddItem(AddToCartPayload(info)));
    if !HasId(s.items, info.id) then
      assert r.items[|s.items|].id == info.id;
      r
    else
      assert r.items[IndexOfId(s.items, info.id)].id == info.id;
      r
  }

  /** Whatever quantity the caller passes, `addToCart` adds exactly one. */
  lemma AddToCartIgnoresQuantity(s: CartState, info: ItemInfo, passed: Option<int>)
    ensures AddToCart(s, info.(quantity := passed)) == AddToCart(s, info)
    ensures Reduce(s, AddItem(AddToCartPayload(info))) == AddToCart(s, info)
  {
  }

  /** `removeFromCart`. */
  function RemoveFromCart(s: CartState, id: int): (r: CartState)
    ensures !HasId(r.items, id)
    ensures |r.items| <= |s.items|
  {
    var r := Reduce(s, RemoveItem(id));
    JsArray.FilterSpec(s.items, OtherThan(id));
    r
  }

  /** `updateQuantity`: the first line with `id` gets exactly `quantity`; ids are unchanged. */
  function SetQuantity(s: CartState, id: int, quantity: int): (r: CartState)
    ensures |r.items| == |s.items|
    ensures forall k :: 0 <= k < |s.items| ==> r.items[k].id == s.items[k].id
    ensures HasId(s.items, id) ==> r.items[IndexOfId(s.items, id)].quantity == quantity
  {
    Reduce(s, UpdateQuantity(id, quantity))
  }

  /** `clearCart`. */
  function ClearAll(s: CartState): (r: CartState)
    ensures r.items == [] && r.totalItems == 0 && r.totalPrice == 0
  {
    Reduce(s, ClearCart)
  }

  /** Adding the same item twice to an empty cart gives one line of quantity 2, not two lines. */
  lemma AddTwiceMerges(info: ItemInfo)
    ensures AddToCart(AddToCart(InitialCartState, info), info)
      == CartState([AddToCartPayload(info).(quantity := 2)], 2, 2 * info.price)
  {
    var once := AddToCart(InitialCartState, info);
    assert once.items == [AddToCartPayload(info)];
    assert IndexOfId(once.items, info.id) == 0;
  }

  /** Add one Snake Plant (id 2, 899), set the quantity to 3 (totals 3 and 2697), then remove it (totals 0 and 0). */
  lemma AddUpdateRemoveScenario()
    ensures var info := ItemInfo(2, "Snake Plant", 899, "flower5.png", None);
      var added := AddToCart(InitialCartState, info);
      var three := SetQuantity(added, 2, 3);
      var gone := RemoveFromCart(three, 2);
      && three.totalItems == 3 && three.totalPrice == 2697
      && gone == InitialCartState
  {
    var info := ItemInfo(2, "Snake Plant", 899, "flower5.png", None);
    var added := AddToCart(InitialCartState, info);
    assert added.items == [CartItem(2, "Snake Plant", 899, "flower5.png", 1)];
    var three := SetQuantity(added, 2, 3);
    assert IndexOfId(added.items, 2) == 0;
    assert three.items == [CartItem(2, "Snake Plant", 899, "flower5.png", 3)];
    assert IndexOfId(three.items, 2) == 0;
    assert JsArray.Filter(three.items, OtherThan(2)) == [] by {
      assert three.items[1..] == [];
    }
  }
}
