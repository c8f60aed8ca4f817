# GuitarLA cart, modelled in Dafny

This project models the cart logic of the GuitarLA catalog page (`src/App.jsx`).

A cart is an ordered sequence of entries. Each entry is a catalog item's identifier and its other fields, plus an integer `quantity`. The cart operations keep that quantity between `MIN_ITEMS = 1` and `MAX_ITEMS = 5`. The page offers five operations on the cart:

- `addToCart`
- `removeFromCart`
- `increaseQuantity`
- `decreaseQuantity`
- `clearCart`

Each one computes a new cart from the current cart and its input. At start-up the cart is read back from a storage slot and repaired. After every change the cart is written back to that slot.

Modules:

- `Wrappers` (`wrappers.dfy`): the `Option` datatype.
- `CartStore` (`cart_store.dfy`): `Item`, `Entry` and `Cart`, and the five operations as functions. It also holds the cart invariant `Valid`: identifiers are unique (`UniqueIds`) and every quantity is in 1..5 (`AllInRange`). Lemmas cover each operation's cases and show that every operation preserves `Valid`.
- `Persistence` (`persistence.dfy`): `Slot` is what reading the slot yields: empty, unparsable, not an array, or an array of `StoredEntry` records. `Load` turns a slot into the initial cart and applies the repair-on-read (`RepairEntry`). `Save` is what every change writes back.
- `Session` (`session.dfy`): `Action` is one call the page makes into the cart. `Apply` performs one call and `Run` performs a sequence of calls. Lemmas show that a whole session keeps the invariant and that the last saved slot loads back to the cart.

The identifier type `Id` is generic and compared by equality, as `===` compares ids. The other item fields form an opaque payload `P`: no operation reads them.

A stored quantity is an `Option<int>`. `None` stands for a missing, `null` or `undefined` field, and `Some(0)` is the falsy number. Every other integer is truthy. Quantities are exact integers; see "## Left out" for JavaScript number limits.

Two details of the code the model keeps:

- `addToCart` leaves the cart unchanged when the quantity is `>= MAX_ITEMS` (src/App.jsx:48), so an out-of-range loaded quantity such as 7 also leaves the cart unchanged.
- `addToCart` increments only the first entry with the id, because it uses `findIndex`. `increaseQuantity` and `decreaseQuantity` change every entry with the id, because they use `map`. With unique ids these agree (`AddExistingIsIncrease`).

## Model

| member | source | states |
|---|---|---|
| `CartStore.FindIndex` | src/App.jsx:44 | The result is `None` exactly when no entry has the id. Otherwise it is the position of an entry with that id, and no earlier entry has it. |
| `CartStore.AddToCart` | src/App.jsx:43-59 | A new id is appended at the end with quantity 1, and the earlier entries stay unchanged and in order. For an id already present, the length, ids and payloads stay the same, entries with other ids are untouched, and a quantity either stays the same or grows by one to at most 5. |
| `CartStore.AddToCartIncrements` | src/App.jsx:44-54 | When the first entry with the id has quantity below 5, the result is the cart with only that entry's quantity raised by one. |
| `CartStore.AddToCartSaturates` | src/App.jsx:46-48 | When the first entry with the id has quantity 5 or more, the cart is returned unchanged. |
| `CartStore.AddExistingIsIncrease` | src/App.jsx:43-75 | With unique ids, adding an item already in the cart gives the same cart as `increaseQuantity` on its id. |
| `CartStore.AddRepeatedly` | src/App.jsx:43-59 | However many times one item is added, the cart grows by at most one entry. |
| `CartStore.AddRepeatedlySaturates` | src/App.jsx:43-59 | Adding one item n ≥ 1 times to an empty cart gives exactly one entry, with quantity min(n, 5). |
| `CartStore.RemoveFromCart` | src/App.jsx:62-64 | No entry with the id remains, and the cart never grows. An absent id leaves the cart unchanged. |
| `CartStore.RemoveFromCartKeeps` | src/App.jsx:62-64 | Every kept entry comes from the cart and has another id. Every entry with another id is kept, as many times as it occurs. |
| `CartStore.RemoveFromCartAppend` | src/App.jsx:63 | Filtering distributes over concatenation, so the kept entries stay in their original order. |
| `CartStore.RemoveFromCartAt` | src/App.jsx:62-64 | With unique ids, removing the id at position k gives exactly `c[..k] + c[k+1..]`. |
| `CartStore.RemoveFromCartIdempotent` | src/App.jsx:62-64 | Removing an id twice gives the same cart as removing it once. |
| `CartStore.IncreaseQuantity` | src/App.jsx:67-75 | Length, ids and payloads are unchanged, and entries with other ids are untouched. A quantity changes exactly when the entry has the id and is below 5. It then grows by one and never passes 5. |
| `CartStore.DecreaseQuantity` | src/App.jsx:78-86 | Length, ids and payloads are unchanged, and entries with other ids are untouched. A quantity changes exactly when the entry has the id and is above 1. It then shrinks by one and never goes below 1. |
| `CartStore.DecreaseUndoesIncrease` | src/App.jsx:67-86 | When every entry with the id is in 1..4, decreasing after increasing restores the cart. |
| `CartStore.IncreaseUndoesDecrease` | src/App.jsx:67-86 | When every entry with the id is in 2..5, increasing after decreasing restores the cart. |
| `CartStore.AbsentIdIsNoOp` | src/App.jsx:62-86 | With an id not in the cart, remove, increase and decrease each return the cart unchanged. |
| `CartStore.DecreaseStopsAtMin` | src/App.jsx:78-86 | Decreasing a single entry of quantity 3 three times gives 2, then 1, then 1. |
| `CartStore.ClearCart` | src/App.jsx:89-91 | Whatever the prior cart, the result is empty and satisfies the invariant. |
| `CartStore.AddToCartPreservesValid` | src/App.jsx:43-59 | `addToCart` keeps ids unique and quantities in 1..5. |
| `CartStore.RemoveFromCartPreservesValid` | src/App.jsx:62-64 | `removeFromCart` keeps ids unique and quantities in 1..5. |
| `CartStore.IncreaseQuantityPreservesValid` | src/App.jsx:67-75 | `increaseQuantity` keeps ids unique and quantities in 1..5. |
| `CartStore.DecreaseQuantityPreservesValid` | src/App.jsx:78-86 | `decreaseQuantity` keeps ids unique and quantities in 1..5. |
| `Persistence.RepairEntry` | src/App.jsx:16-19 | Id and payload are copied, and the repaired quantity is never the falsy 0. A truthy stored quantity is kept as it is; a missing or falsy one becomes 1. |
| `Persistence.Load` | src/App.jsx:9-24 | An empty, unparsable or non-array slot gives the empty cart. An array gives one entry per record, in stored order, with the same ids and payloads. Truthy quantities are kept, missing or falsy ones become 1, and no quantity is 0. |
| `Persistence.Save` | src/App.jsx:38-40 | The slot holds an array with one record per entry, in cart order. Each record has the entry's id, payload and its own quantity. |
| `Persistence.LoadSaveRoundTrip` | src/App.jsx:12-40 | Loading what was saved gives back the same cart exactly when no quantity in it is 0. |
| `Persistence.LoadSaveValid` | src/App.jsx:12-40 | A cart that satisfies the invariant survives a save and reload unchanged. |
| `Persistence.LoadIsStable` | src/App.jsx:16-19 | Loading, saving and loading again gives the cart of the first load. |
| `Persistence.LoadValidIff` | src/App.jsx:14-19 | The loaded cart satisfies the invariant exactly when stored ids are unique and each stored quantity is missing, 0, or in 1..5. |
| `Persistence.LoadLegacyRecord` | src/App.jsx:16-19 | A record `{id: 2, name: "X"}` without a quantity loads as that record with quantity 1. |
| `Persistence.LoadKeepsOutOfRange` | src/App.jsx:18 | A stored quantity of 9 is loaded as 9, so the loaded cart breaks the invariant: the repair does not clamp. |
| `Session.ApplyPreservesValid` | src/App.jsx:43-91 | Each of the five calls keeps the cart invariant. |
| `Session.RunPreservesValid` | src/App.jsx:43-91 | Any sequence of calls keeps the cart invariant. |
| `Session.SessionKeepsInvariant` | src/App.jsx:9-91 | Start from stored records with unique ids and quantities that are missing, 0 or in 1..5. Every cart the session reaches then satisfies the invariant, and its saved slot loads back to that same cart. |
| `Session.SessionFromEmptySlot` | src/App.jsx:9-24 | A session that starts from an empty, unparsable or non-array slot keeps the invariant throughout. |

## Left out

- Rendering: the JSX markup, the `Header` and `Guitar` components and the footer (src/App.jsx:93-127). They only call the five operations, which `Session.Action` lists.
- Browser storage and React effects: `localStorage.getItem`/`setItem` and the two `useEffect` hooks (src/App.jsx:11,33-40). The slot's content is a parameter of `Load`. Writing after every change is modelled by `Save` applied to the cart after a call. A failed storage write is not modelled.
- JSON text: `JSON.parse`, `JSON.stringify`, the `try`/`catch` and `console.error` (src/App.jsx:13,20-22,39). `Slot` models only the outcomes of a read: empty, unparsable, not an array, or an array of records.
- Non-integer quantities: a stored quantity that is a string, boolean, `NaN` or a fraction is not modelled. With a string, `quantity + 1` would concatenate. Only integers, missing and `null` are modelled.
- Array elements that are not objects: a number or string inside the stored array is not modelled. Every stored element is a record with an id.
- `null` array elements: reading `null.quantity` throws (src/App.jsx:18), and the `catch` (src/App.jsx:20-22) then empties the whole load. A `Records` slot never holds such an element, so this outcome is not modelled.
- Quantities beyond 2^53 or infinite: JavaScript numbers are doubles. Above 2^53, `quantity - 1` (src/App.jsx:82) can leave the value unchanged, while the model subtracts exactly. A stored `1e999` loads as `Infinity`, `JSON.stringify` (src/App.jsx:39) writes it as `null`, and the next load repairs it to 1. `LoadIsStable` and `LoadSaveRoundTrip` hold only over exact integers.
- Payload fields: `price`, `name`, `image` and `description` stay opaque, because no operation reads them. Floating-point prices are therefore not modelled.
- The product catalog `db` and the `data` state (src/App.jsx:5,26,33-35): this is external static data. Items reach the model only as the argument of `addToCart`.
- `useState`/`setCart` plumbing: each operation is a function of the current cart. `addToCart` reads `cart` from the render closure, while the others use the updater's previous cart. With one call per render, as here, both are the same cart.

