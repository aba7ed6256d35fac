# Paradise Nursery cart store, modelled in Dafny

Paradise Nursery is a small client-side plant shop. Its only logic sits in
`src/App.jsx`. This project models two parts of that file.

The first is the cart store, `CartProvider`. Its state is a map from product
id to a cart line `{ product, qty }`, and it offers five things:

- `addToCart`: adds a product, or adds one to the quantity of its line.
- `updateQty`: sets a quantity; zero or less drops the line.
- `removeItem`: drops a line.
- `clearCart`: empties the cart.
- `totalItems` and `totalPrice`: sums over the lines.

At start-up the store reads the cart saved under the key `pn_cart`, and it
falls back to an empty cart when nothing usable is there.

The second is the category grouping of the products page (`Products`). It
lists the distinct categories in order of first appearance. Then it shows,
for each category, the catalog's products of that category.

Files:

- `catalog.dfy` (module `Catalog`): the `Product` record and the grouping, as
  functions with lemmas. The grouping produces a list of `Section`s.
- `cart_state.dfy` (module `CartState`): the cart as a value `Lines`.
  - The three updater functions handed to `setItems` (`addToCart`,
    `updateQty`, `removeItem`), as total functions. `clearCart` stores the
    value `{}`; it is the `Clear` case of `Step`.
  - The totals, `ItemCount` and `PriceSum`.
  - The cart invariant `WellFormed`: every quantity is at least 1, and every
    key is its line's product id.
  - The start-up fallback `Load`.
  - Runs of user `Action`s, and what those runs preserve.
- `cart_store.dfy` (module `CartStore`): the class `Cart`. Its field `items`
  is the state cell. `AddToCart`, `UpdateQty` and `RemoveItem` replace it with
  exactly what the `CartState` function of the same name computes.
  `ClearCart` stores the empty cart. `TotalItems` and `TotalPrice` sum over the
  keys with a loop, in whatever order the keys come.

Prices are whole cents (`int`), so every sum is exact.

## Model

| member | source | states |
|---|---|---|
| `CartState.AddToCart` | src/App.jsx:28-34 | A product without a line gets the line (product, 1). A product with a line gets quantity old + 1, stored with the product just passed in. Every other line is kept, and no other key appears. |
| `CartState.UpdateQty` | src/App.jsx:36-44 | An id without a line leaves the cart unchanged. A quantity of 0 or less removes exactly that key. A positive quantity sets that line's quantity to exactly that value and keeps its product. All other lines are kept. |
| `CartState.RemoveItem` | src/App.jsx:45-50 | The keys afterwards are the old keys minus `id`. Every remaining line is unchanged. |
| `CartState.Load` | src/App.jsx:17-23 | A decoded snapshot is restored exactly. A missing, unparseable or falsy slot gives the empty cart. So a non-empty start-up cart can only come from a decoded snapshot. |
| `CartState.LoadFallback` | src/App.jsx:17-23 | A missing, unparseable or falsy slot gives the empty cart, with both totals 0. |
| `CartState.Step` | src/App.jsx:28-53 | `Clear` gives the empty cart whatever the cart was. Every action keeps the invariant: every quantity is at least 1, and every key is its line's product id. |
| `CartState.ItemCount` | src/App.jsx:56 | `totalItems` is 0 on the empty cart. On a well-formed cart it is at least the number of lines. |
| `CartState.PriceSum` | src/App.jsx:57-60 | `totalPrice` is 0 on the empty cart. On a well-formed cart with no negative price it is not negative. |
| `CartState.SumOverRemove` | src/App.jsx:56-60 | A sum over the lines does not depend on the order of the lines. Any line can be taken out first. |
| `CartState.ItemCountAtLeastLines` | src/App.jsx:56 | On a well-formed cart, `totalItems` is at least the number of lines. It is 0 exactly when the cart is empty. |
| `CartState.PriceSumNonNegative` | src/App.jsx:57-60 | On a well-formed cart whose prices are not negative, `totalPrice` is not negative. |
| `CartState.AddToCartTotals` | src/App.jsx:28-60 | `addToCart` raises `totalItems` by exactly 1. It raises `totalPrice` by the new price, plus the old quantity times the price change when the line already existed. |
| `CartState.UpdateQtyTotals` | src/App.jsx:36-60 | `updateQty` leaves the totals alone for an absent id. Dropping a line subtracts its share of both totals. A positive quantity q changes `totalItems` by q - old and `totalPrice` by (q - old) × price. |
| `CartState.RemoveItemTotals` | src/App.jsx:45-60 | `removeItem` subtracts exactly the removed line's quantity and subtotal. An absent id leaves both totals unchanged. |
| `CartState.ClearedTotals` | src/App.jsx:52-60 | `clearCart` on any cart gives the empty cart, whose totals are both 0. |
| `CartState.RemoveItemIdempotent` | src/App.jsx:45-50 | Removing the same id twice gives the same cart as removing it once. Removing an absent id changes nothing. |
| `CartState.UpdateQtyFloor` | src/App.jsx:39-40 | A quantity of 0 or less leaves no line for the id. On an existing line this equals `removeItem`. |
| `CartState.StepKeepsWellFormed` | src/App.jsx:28-53 | Each of the four transitions keeps the invariant: every quantity is at least 1, and every key is its line's product id. |
| `CartState.RunKeepsWellFormed` | src/App.jsx:28-53 | Any sequence of transitions from a well-formed cart ends in a well-formed cart. |
| `CartState.ReachableIsWellFormed` | src/App.jsx:28-53 | Every cart reachable from the empty cart is well-formed. |
| `CartState.StepKeepsFromCatalog` | src/App.jsx:28-53 | If only catalog products are added, each transition keeps every line's product in the catalog. |
| `CartState.RunKeepsFromCatalog` | src/App.jsx:28-53 | If a run only adds catalog products, every line's product stays in the catalog for the whole run. |
| `CartState.AddTwiceScenario` | src/App.jsx:28-60 | Adding the same product twice to an empty cart gives one line of quantity 2. Then `totalItems` is 2 and `totalPrice` is twice the price. |
| `CartState.SetQtyScenario` | src/App.jsx:36-60 | Start with {p1: 3, p2: 1} and set p1 to 1. The result is {p1: 1, p2: 1}, with `totalItems` 2. |
| `CartState.SetZeroScenario` | src/App.jsx:36-60 | Start with {p1: 1} and set p1 to 0. The cart becomes empty, with `totalItems` 0. |
| `CartStore.Cart.constructor` | src/App.jsx:17-23 | The initial cart is what `Load` gives: the empty cart unless a cart was decoded. |
| `CartStore.Cart.AddToCart` | src/App.jsx:28-34 | The new cart is `CartState.AddToCart` of the old one. The invariant is kept. |
| `CartStore.Cart.UpdateQty` | src/App.jsx:36-44 | The method copies the cart, then deletes the key or overwrites the quantity. The new cart is `CartState.UpdateQty` of the old one, and the invariant is kept. |
| `CartStore.Cart.RemoveItem` | src/App.jsx:45-50 | The method deletes the key from a copy. The new cart is `CartState.RemoveItem` of the old one, and the invariant is kept. |
| `CartStore.Cart.ClearCart` | src/App.jsx:52-53 | The cart becomes empty, and both totals become 0. |
| `CartStore.Cart.TotalItems` | src/App.jsx:56 | The loop over the keys returns the sum of all quantities, whatever order it visits them in. On a well-formed cart the result is at least the number of lines. |
| `CartStore.Cart.TotalPrice` | src/App.jsx:57-60 | The loop over the keys returns the sum of quantity × price over all lines, whatever order it visits them in. |
| `Catalog.Distinct` | src/App.jsx:194 | `Array.from(new Set(...))` has no duplicates and holds exactly the values of its input. |
| `Catalog.Categories` | src/App.jsx:194 | The category list has no duplicates. It holds exactly the categories of the catalog's products. |
| `Catalog.DistinctKeepsFirstAppearanceOrder` | src/App.jsx:194 | For any two values in the de-duplicated list, the earlier one first occurs earlier in the input. |
| `Catalog.CategoriesInFirstAppearanceOrder` | src/App.jsx:194 | The categories are listed in the order in which they first occur in the catalog. |
| `Catalog.InCategory` | src/App.jsx:201-202 | The filter keeps exactly the catalog products of the given category, each as many times as the catalog holds it. |
| `Catalog.SectionsFor` | src/App.jsx:197-202 | There is one section per listed category, in the same order. Each section holds the filter for its category. |
| `Catalog.Sections` | src/App.jsx:194-202 | Section i is headed by category i. It holds only catalog products of that category, and it is never empty. |
| `Catalog.EachProductInExactlyOneSection` | src/App.jsx:194-202 | Every catalog product appears in some section headed by its own category, and in no other section. |
| `Catalog.InCategoryIsSubsequence` | src/App.jsx:201-202 | The filter's result is a subsequence of the catalog. |
| `Catalog.SectionsKeepCatalogOrder` | src/App.jsx:194-202 | Every section lists its products in their relative catalog order. |
| `Catalog.SectionsPartitionCatalog` | src/App.jsx:194-202 | Taken together, the sections hold each catalog product exactly as many times as the catalog does, and nothing else. |

## Left out

- JSON encoding and decoding and the `localStorage` calls (lines 19 and 24-26) are left out. The slot read is a `Snapshot` value: missing, unparseable, falsy or decoded. So the save-on-change effect and the save/load round trip are not modelled.
- A decoded value that is truthy but not shaped like a cart (a number, a string, an array) is not modelled. The code would keep it as the cart unchecked. A decoded cart is not validated either. So the invariant is proved only for carts that start well-formed, such as the empty cart.
- A failed `localStorage.setItem` is not modelled. At line 25 the code does not catch it, so a failed save propagates out of the effect.
- `CartStore.Cart.UpdateQty` does not model aliasing, because lines are values here. At line 38 the code makes a shallow copy, so the assignment at line 41 also changes the line object that the previous state shares.
- Keys are a plain map, not JavaScript objects with a prototype. An id such as `toString` would find an inherited, truthy property at lines 31 and 39; the model treats it like any other absent id.
- Quantities are integers. `updateQty` with a fractional or non-numeric quantity is not modelled.
- Prices are integer cents. Floating-point prices and `toFixed` formatting (lines 84-119, 149, 163-164, 223) are not modelled.
- The hard-coded catalog (lines 79-122) is not modelled, and neither is the checkout `alert` stub (line 241). The grouping is proved for every catalog.
- React rendering, context, hooks and routing are not modelled. That covers `src/App.jsx` lines 1-15, 62-76 and 124-274, and `paradise-app/src/Header.jsx`, which only displays `totalItems`.
- A cart line's product is never checked against the catalog, at add time or otherwise. `CartState.RunKeepsFromCatalog` states the property only under the assumption that every added product is a catalog product.
- `addToCart` on an existing line stores the product just passed in, not the one already in the line. The model follows the code here.
