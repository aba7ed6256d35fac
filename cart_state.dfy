/** The cart state of `CartProvider` (src/App.jsx) as values: a map from
    product id to a line, the three updater functions handed to `setItems` as
    total functions on that map, `clearCart`'s empty cart as the `Clear` step,
    the derived totals, the start-up fallback, and what runs of transitions
    preserve. */
module CartState {
  import opened Catalog

  /** A cart line `{ product, qty }`. */
  datatype Line = Line(product: Product, qty: int)

  /** The cart: product id to line. */
  type Lines = map<string, Line>

  /** The cart invariant: every line has a positive quantity and is stored
      under its own product's id. */
  predicate WellFormed(items: Lines)
  {
    forall id :: id in items ==> items[id].qty >= 1 && items[id].product.id == id
  }

  /** Every line's product is one of the catalog's. */
  predicate FromCatalog(items: Lines, catalog: seq<Product>)
  {
    forall id :: id in items ==> items[id].product in catalog
  }

  // ---------------------------------------------------------------------------
  // Transitions

  /** `addToCart(product)`: a new line with quantity 1, or the existing line's
      quantity plus one, stored with the product just passed in. */
  function AddToCart(items: Lines, product: Product): (r: Lines)
    ensures r.Keys == items.Keys + {product.id}
    ensures product.id !in items ==> r[product.id] == Line(product, 1)
    ensures product.id in items ==> r[product.id] == Line(product, items[product.id].qty + 1)
    ensures forall id :: id in items && id != product.id ==> r[id] == items[id]
  {
    var line := if product.id in items then Line(product, items[product.id].qty + 1) else Line(product, 1);
    items[product.id := line]
  }

  /** `updateQty(id, qty)`: an absolute set of the quantity; a quantity of
      zero or less drops the line, and an id without a line changes nothing. */
  function UpdateQty(items: Lines, id: string, qty: int): (r: Lines)
    ensures id !in items ==> r == items
    ensures id in items && qty <= 0 ==> r.Keys == items.Keys - {id}
    ensures id in items && qty > 0 ==> r.Keys == items.Keys && r[id] == Line(items[id].product, qty)
    ensures forall k :: k in r && k != id ==> k in items && r[k] == items[k]
  {
    if id !in items then items
    else if qty <= 0 then items - {id}
    else items[id := items[id].(qty := qty)]
  }

  /** `removeItem(id)`: no line for `id` afterwards, all other lines kept. */
  function RemoveItem(items: Lines, id: string): (r: Lines)
    ensures r.Keys == items.Keys - {id}
    ensures forall k :: k in r ==> r[k] == items[k]
  {
    items - {id}
  }

  /** A user action on the cart; `Clear` is `clearCart()`, which stores `{}`. */
  datatype Action = Add(product: Product) | SetQty(id: string, qty: int) | Remove(id: string) | Clear

  /** One action applied to the cart. Clearing gives the empty cart whatever
      came before; every action keeps the cart invariant. */
  function Step(items: Lines, a: Action): (r: Lines)
    ensures a.Clear? ==> r == map[]
    ensures WellFormed(items) ==> WellFormed(r)
  {
    match a
    case Add(p) => AddToCart(items, p)
    case SetQty(id, q) => UpdateQty(items, id, q)
    case Remove(id) => RemoveItem(items, id)
    case Clear => map[]
  }

  /** The cart after a sequence of actions, applied in order. */
  function Run(items: Lines, actions: seq<Action>): Lines
    decreases |actions|
  {
    if actions == [] then items else Run(Step(items, actions[0]), actions[1..])
  }

  // ---------------------------------------------------------------------------
  // Start-up load

  /** What the start-up read of the "pn_cart" slot produced: no value, text
      that does not parse, a parsed value that is falsy (`null`, `0`, `""`,
      `false`), or a parsed cart object. */
  datatype Snapshot = Missing | Unparseable | Falsy | Decoded(items: Lines)

  /** The initial state (lines 17-23): the decoded cart, or `{}` otherwise. */
  function Load(slot: Snapshot): (r: Lines)
    ensures slot.Decoded? ==> r == slot.items
    ensures !slot.Decoded? ==> r == map[]
    ensures r != map[] ==> slot == Decoded(r)
  {
    match slot
    case Decoded(items) => items
    case _ => map[]
  }

  // ---------------------------------------------------------------------------
  // Totals

  function LineQty(line: Line): int { line.qty }

  /** `it.qty * it.product.price`: never negative for a non-negative quantity
      and price. */
  function Subtotal(line: Line): (r: int)
    ensures line.qty >= 0 && line.product.price >= 0 ==> r >= 0
  {
    if line.qty >= 0 && line.product.price >= 0 then MulNonNegative(line.qty, line.product.price); line.qty * line.product.price
    else line.qty * line.product.price
  }

  /** The sum of `weight` over the lines, in no particular order (the order of
      `Object.values` does not matter to a sum, see SumOverRemove). */
  ghost function SumOver(items: Lines, weight: Line -> int): (r: int)
    ensures items == map[] ==> r == 0
    decreases |items|
  {
    if items == map[] then 0
    else
      var id :| id in items;
      weight(items[id]) + SumOver(items - {id}, weight)
  }

  /** `totalItems` (line 56). */
  ghost function ItemCount(items: Lines): (r: int)
    ensures items == map[] ==> r == 0
    ensures WellFormed(items) ==> r >= |items|
  {
    if WellFormed(items) then SumOverAtLeastSize(items, LineQty); SumOver(items, LineQty)
    else SumOver(items, LineQty)
  }

  /** `totalPrice` (lines 57-60). */
  ghost function PriceSum(items: Lines): (r: int)
    ensures items == map[] ==> r == 0
    ensures WellFormed(items) && PricesNonNegative(items) ==> r >= 0
  {
    if WellFormed(items) && PricesNonNegative(items) then SumOverNonNegative(items, Subtotal); SumOver(items, Subtotal)
    else SumOver(items, Subtotal)
  }

  predicate PricesNonNegative(items: Lines)
  {
    forall id :: id in items ==> items[id].product.price >= 0
  }

  lemma {:induction false} SumOverNonNegative(items: Lines, weight: Line -> int)
    requires forall id :: id in items ==> weight(items[id]) >= 0
    ensures SumOver(items, weight) >= 0
    decreases |items|
  {
    if items != map[] {
      var id :| id in items && SumOver(items, weight) == weight(items[id]) + SumOver(items - {id}, weight);
      SumOverNonNegative(items - {id}, weight);
    }
  }

  lemma {:induction false} SumOverAtLeastSize(items: Lines, weight: Line -> int)
    requires forall id :: id in items ==> weight(items[id]) >= 1
    ensures SumOver(items, weight) >= |items|
    decreases |items|
  {
    if items != map[] {
      var id :| id in items && SumOver(items, weight) == weight(items[id]) + SumOver(items - {id}, weight);
      SumOverAtLeastSize(items - {id}, weight);
    }
  }

  /** Any line can be taken out of the sum first. */
  lemma {:induction false} SumOverRemove(items: Lines, weight: Line -> int, id: string)
    requires id in items
    ensures SumOver(items, weight) == weight(items[id]) + SumOver(items - {id}, weight)
    decreases |items|
  {
    var chosen :| chosen in items && SumOver(items, weight) == weight(items[chosen]) + SumOver(items - {chosen}, weight);
    if chosen != id {
      SumOverRemove(items - {chosen}, weight, id);
      SumOverRemove(items - {id}, weight, chosen);
      assert items - {chosen} - {id} == items - {id} - {chosen};
    }
  }

  /** Replacing or adding one line changes the sum by that line's weight. */
  lemma SumOverPut(items: Lines, weight: Line -> int, id: string, line: Line)
    ensures SumOver(items[id := line], weight)
         == SumOver(items, weight) + weight(line) - (if id in items then weight(items[id]) else 0)
  {
    SumOverRemove(items[id := line], weight, id);
    assert items[id := line] - {id} == items - {id};
    if id in items {
      SumOverRemove(items, weight, id);
    } else {
      assert items - {id} == items;
    }
  }

  lemma SumOverDrop(items: Lines, weight: Line -> int, id: string)
    ensures SumOver(items - {id}, weight) == SumOver(items, weight) - (if id in items then weight(items[id]) else 0)
  {
    if id in items {
      SumOverRemove(items, weight, id);
    } else {
      assert items - {id} == items;
    }
  }

  /** With the invariant, the item count is at least the number of lines, so
      it is zero exactly when the cart is empty. */
  lemma {:induction false} ItemCountAtLeastLines(items: Lines)
    requires WellFormed(items)
    ensures ItemCount(items) >= |items|
    ensures ItemCount(items) == 0 <==> items == map[]
    decreases |items|
  {
    if items != map[] {
      var id :| id in items;
      SumOverRemove(items, LineQty, id);
      ItemCountAtLeastLines(items - {id});
    }
  }

  /** With the invariant and no negative price, the total price is never
      negative. */
  lemma {:induction false} PriceSumNonNegative(items: Lines)
    requires WellFormed(items)
    requires PricesNonNegative(items)
    ensures PriceSum(items) >= 0
    decreases |items|
  {
    if items != map[] {
      var id :| id in items;
      var line := items[id];
      SumOverRemove(items, Subtotal, id);
      PriceSumNonNegative(items - {id});
      assert Subtotal(line) >= 0 by {
        assert line.qty >= 0 && line.product.price >= 0;
        MulNonNegative(line.qty, line.product.price);
      }
    }
  }

  lemma MulNonNegative(a: int, b: int)
    requires a >= 0 && b >= 0
    ensures a * b >= 0
  {
  }

  lemma SubtotalDifference(line: Line, qty: int)
    ensures Subtotal(line.(qty := qty)) - Subtotal(line) == (qty - line.qty) * line.product.price
  {
    var p := line.product.price;
    assert qty * p - line.qty * p == (qty - line.qty) * p;
  }

  // ---------------------------------------------------------------------------
  // Transitions and totals

  /** Adding a product raises the item count by exactly one. */
  lemma AddToCartTotals(items: Lines, product: Product)
    ensures ItemCount(AddToCart(items, product)) == ItemCount(items) + 1
    ensures PriceSum(AddToCart(items, product))
         == PriceSum(items) + product.price
            + (if product.id in items
               then items[product.id].qty * (product.price - items[product.id].product.price)
               else 0)
  {
    var line := if product.id in items then Line(product, items[product.id].qty + 1) else Line(product, 1);
    SumOverPut(items, LineQty, product.id, line);
    SumOverPut(items, Subtotal, product.id, line);
    if product.id in items {
      SubtotalAfterAdd(items[product.id], product);
    } else {
      assert Subtotal(line) == product.price;
    }
  }

  lemma SubtotalAfterAdd(line: Line, product: Product)
    ensures Subtotal(Line(product, line.qty + 1)) - Subtotal(line)
         == product.price + line.qty * (product.price - line.product.price)
  {
    var q, o, p := line.qty, line.product.price, product.price;
    assert Subtotal(Line(product, q + 1)) == (q + 1) * p;
    assert Subtotal(line) == q * o;
    assert (q + 1) * p - q * o == p + q * (p - o);
  }

  /** Setting a quantity replaces that line's share of the totals (or removes
      it); an absent id leaves them as they were. */
  lemma UpdateQtyTotals(items: Lines, id: string, qty: int)
    ensures id !in items ==>
      ItemCount(UpdateQty(items, id, qty)) == ItemCount(items) &&
      PriceSum(UpdateQty(items, id, qty)) == PriceSum(items)
    ensures id in items && qty <= 0 ==>
      ItemCount(UpdateQty(items, id, qty)) == ItemCount(items) - items[id].qty &&
      PriceSum(UpdateQty(items, id, qty)) == PriceSum(items) - Subtotal(items[id])
    ensures id in items && qty > 0 ==>
      ItemCount(UpdateQty(items, id, qty)) == ItemCount(items) - items[id].qty + qty &&
      PriceSum(UpdateQty(items, id, qty)) == PriceSum(items) + (qty - items[id].qty) * items[id].product.price
  {
    if id in items {
      if qty <= 0 {
        SumOverDrop(items, LineQty, id);
        SumOverDrop(items, Subtotal, id);
      } else {
        SumOverPut(items, LineQty, id, items[id].(qty := qty));
        SumOverPut(items, Subtotal, id, items[id].(qty := qty));
        SubtotalDifference(items[id], qty);
      }
    }
  }

  /** Removing a line takes exactly its share out of the totals. */
  lemma RemoveItemTotals(items: Lines, id: string)
    ensures ItemCount(RemoveItem(items, id)) == ItemCount(items) - (if id in items then items[id].qty else 0)
    ensures PriceSum(RemoveItem(items, id)) == PriceSum(items) - (if id in items then Subtotal(items[id]) else 0)
  {
    SumOverDrop(items, LineQty, id);
    SumOverDrop(items, Subtotal, id);
  }

  /** After `clearCart()` both totals are zero. */
  lemma ClearedTotals(items: Lines)
    ensures Step(items, Clear) == map[]
    ensures ItemCount(Step(items, Clear)) == 0 && PriceSum(Step(items, Clear)) == 0
  {
  }

  // ---------------------------------------------------------------------------
  // Properties of single transitions

  /** Removing twice is removing once. */
  lemma RemoveItemIdempotent(items: Lines, id: string)
    ensures RemoveItem(RemoveItem(items, id), id) == RemoveItem(items, id)
    ensures id !in items ==> RemoveItem(items, id) == items
  {
    assert RemoveItem(items, id) - {id} == items - {id};
  }

  /** A quantity of zero or less on an existing line leaves no line for it. */
  lemma UpdateQtyFloor(items: Lines, id: string, qty: int)
    requires qty <= 0
    ensures id !in UpdateQty(items, id, qty)
    ensures id in items ==> UpdateQty(items, id, qty) == RemoveItem(items, id)
  {
  }

  /** Each transition keeps the invariant. */
  lemma StepKeepsWellFormed(items: Lines, a: Action)
    requires WellFormed(items)
    ensures WellFormed(Step(items, a))
  {
  }

  /** Each transition keeps the cart within the catalog, as long as only
      catalog products are added. */
  lemma StepKeepsFromCatalog(items: Lines, a: Action, catalog: seq<Product>)
    requires FromCatalog(items, catalog)
    requires a.Add? ==> a.product in catalog
    ensures FromCatalog(Step(items, a), catalog)
  {
  }

  /** Every run of actions keeps the invariant. */
  lemma {:induction false} RunKeepsWellFormed(items: Lines, actions: seq<Action>)
    requires WellFormed(items)
    ensures WellFormed(Run(items, actions))
    decreases |actions|
  {
    if actions != [] {
      StepKeepsWellFormed(items, actions[0]);
      RunKeepsWellFormed(Step(items, actions[0]), actions[1..]);
    }
  }

  /** Every cart reached from the empty cart satisfies the invariant. */
  lemma ReachableIsWellFormed(actions: seq<Action>)
    ensures WellFormed(Run(map[], actions))
  {
    RunKeepsWellFormed(map[], actions);
  }

  /** A run that only adds catalog products keeps the cart within the catalog. */
  lemma {:induction false} RunKeepsFromCatalog(items: Lines, actions: seq<Action>, catalog: seq<Product>)
    requires FromCatalog(items, catalog)
    requires forall k :: 0 <= k < |actions| && actions[k].Add? ==> actions[k].product in catalog
    ensures FromCatalog(Run(items, actions), catalog)
    decreases |actions|
  {
    if actions != [] {
      StepKeepsFromCatalog(items, actions[0], catalog);
      assert forall k :: 0 <= k < |actions[1..]| ==> actions[1..][k] == actions[k + 1];
      RunKeepsFromCatalog(Step(items, actions[0]), actions[1..], catalog);
    }
  }

  /** A start-up that finds nothing usable gives the empty cart. */
  lemma LoadFallback(slot: Snapshot)
    requires !slot.Decoded?
    ensures Load(slot) == map[] && ItemCount(Load(slot)) == 0 && PriceSum(Load(slot)) == 0
  {
  }

  // ---------------------------------------------------------------------------
  // Scenarios

  /** Empty cart, the same product added twice: one line of quantity 2. */
  lemma AddTwiceScenario(p: Product)
    ensures Run(map[], [Add(p), Add(p)]) == map[p.id := Line(p, 2)]
    ensures ItemCount(Run(map[], [Add(p), Add(p)])) == 2
    ensures PriceSum(Run(map[], [Add(p), Add(p)])) == 2 * p.price
  {
    var once := AddToCart(map[], p);
    assert Run(map[], [Add(p), Add(p)]) == Run(once, [Add(p)]);
    assert Run(once, [Add(p)]) == Run(AddToCart(once, p), []);
    AddToCartTotals(map[], p);
    AddToCartTotals(once, p);
  }

  /** Lines {p1: 3, p2: 1}, quantity of p1 set to 1: {p1: 1, p2: 1}, two items. */
  lemma SetQtyScenario(p1: Product, p2: Product)
    requires p1.id != p2.id
    ensures UpdateQty(map[p1.id := Line(p1, 3), p2.id := Line(p2, 1)], p1.id, 1)
         == map[p1.id := Line(p1, 1), p2.id := Line(p2, 1)]
    ensures ItemCount(UpdateQty(map[p1.id := Line(p1, 3), p2.id := Line(p2, 1)], p1.id, 1)) == 2
  {
    var before := map[p1.id := Line(p1, 3), p2.id := Line(p2, 1)];
    UpdateQtyTotals(before, p1.id, 1);
    SumOverPut(map[p1.id := Line(p1, 3)], LineQty, p2.id, Line(p2, 1));
    SumOverPut(map[], LineQty, p1.id, Line(p1, 3));
  }

  /** Lines {p1: 1}, quantity of p1 set to 0: the cart is empty. */
  lemma SetZeroScenario(p1: Product)
    ensures UpdateQty(map[p1.id := Line(p1, 1)], p1.id, 0) == map[]
    ensures ItemCount(UpdateQty(map[p1.id := Line(p1, 1)], p1.id, 0)) == 0
  {
    assert map[p1.id := Line(p1, 1)] - {p1.id} == map[];
  }
}
