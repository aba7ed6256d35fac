/** The cart store of `CartProvider` (src/App.jsx, lines 16-60): the `items`
    state cell and the operations that replace it. Each operation stores the
    cart its updater function in `CartState` computes, and keeps the cart
    invariant. */
module CartStore {
  import opened Catalog
  import opened CartState

  class Cart {
    /** The current cart (`items`, line 17). */
    var items: Lines

    /** Start-up: the cart read from storage, or the empty cart when the slot
        is missing, does not parse or holds a falsy value (lines 17-23). */
    constructor (slot: Snapshot)
      ensures items == Load(slot)
      ensures !slot.Decoded? ==> items == map[]
    {
      match slot {
        case Decoded(saved) => items := saved;
        case _ => items := map[];
      }
    }

    /** `addToCart` (lines 28-34). */
    method AddToCart(product: Product)
      modifies this
      ensures items == CartState.AddToCart(old(items), product)
      ensures WellFormed(old(items)) ==> WellFormed(items)
    {
      items := CartState.AddToCart(items, product);
    }

    /** `updateQty` (lines 36-44): work on a copy, keep the old cart when `id`
        has no line, otherwise drop the line or overwrite its quantity. */
    method UpdateQty(id: string, qty: int)
      modifies this
      ensures items == CartState.UpdateQty(old(items), id, qty)
      ensures WellFormed(old(items)) ==> WellFormed(items)
    {
      var copy := items;
      if id !in copy {
        return;
      }
      if qty <= 0 {
        copy := copy - {id};
      } else {
        copy := copy[id := copy[id].(qty := qty)];
      }
      items := copy;
    }

    /** `removeItem` (lines 45-50): delete the key from a copy. */
    method RemoveItem(id: string)
      modifies this
      ensures items == CartState.RemoveItem(old(items), id)
      ensures WellFormed(old(items)) ==> WellFormed(items)
    {
      var copy := items;
      copy := copy - {id};
      items := copy;
    }

    /** `clearCart` (lines 52-53). */
    method ClearCart()
      modifies this
      ensures items == map[]
      ensures ItemCount(items) == 0 && PriceSum(items) == 0
    {
      items := map[];
      ClearedTotals(old(items));
    }

    /** `totalItems` (line 56): the quantities summed over the lines, visited
        in whatever order the keys come. */
    method TotalItems() returns (n: int)
      ensures n == ItemCount(items)
      ensures WellFormed(items) ==> n >= |items|
    {
      n := 0;
      var rest := items;
      while rest != map[]
        invariant n + ItemCount(rest) == ItemCount(items)
        decreases |rest|
      {
        var id :| id in rest;
        SumOverRemove(rest, LineQty, id);
        n := n + rest[id].qty;
        rest := rest - {id};
      }
      if WellFormed(items) {
        ItemCountAtLeastLines(items);
      }
    }

    /** `totalPrice` (lines 57-60): quantity times unit price, summed over the
        lines in whatever order the keys come. */
    method TotalPrice() returns (total: int)
      ensures total == PriceSum(items)
    {
      total := 0;
      var rest := items;
      while rest != map[]
        invariant total + PriceSum(rest) == PriceSum(items)
        decreases |rest|
      {
        var id :| id in rest;
        SumOverRemove(rest, Subtotal, id);
        total := total + rest[id].qty * rest[id].product.price;
        rest := rest - {id};
      }
    }
  }
}
