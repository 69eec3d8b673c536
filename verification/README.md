# Adisyon point-of-sale core, modelled in Dafny

This project models the order logic of a small café/shop point-of-sale
client. The client is React UI over a backend gateway; underneath the UI
sits a small amount of sequential logic, and that is what is modelled here:

- the **cart engine** of `App.tsx`: adding a product (count products merge
  into their line, weighed and portion products always get a new line),
  removing a line, editing a line's quantity, and the cart total;
- the **session transitions** of `App.tsx`: opening a table session, saving
  the order, the realtime refresh, completing payment, the take-payment
  button and the delete-table guard. Each is a pure function from the App
  state and the gateway's answer to the next App state;
- the **in-memory gateway** of `services/supabaseService.ts`. It holds
  products, tables and orders and provides `getActiveOrders`, `upsertOrder`,
  `closeOrder`, `saveProduct` and `deleteProduct`. Two guarantees are
  proved: stored totals equal the sum of line totals, and a table that
  points at an order is occupied;
- the **settlement dialog** (`PaymentModal.tsx`): quick full payment, split
  payments, the 0.01 completion tolerance and the one-dot keypad rule;
- the three **keypad dialogs**:
  - `EditQuantityModal.tsx` edits kg lines in grams;
  - `CustomPriceModal.tsx` handles the dot, replaces a leading zero and caps
    the price at eight digits;
  - `WeightModal.tsx` takes the typed value as kg.

  These rest on a model of `parseFloat`, `toFixed(0)` and `toString` over
  keypad text.

Money and quantities are exact `real`s. Gateway calls become parameters:
`None` (or `closed == false`) stands for a call that threw. Fresh ids, order
numbers and timestamps come from an oracle record (`Store.Fresh`). The
operator's `window.confirm` answer is a boolean parameter.

Modules: `Wrappers` (Option, Result, and Field for one key of a partial
record), `Seqs` (`findIndex`, `filter`), `Domain` (types.ts), `Keypad`,
`Cart`, `Store`, `Session`, `Payment`, `QuantityEntry`, `PriceEntry` and
`WeightEntry`.

Each dialog resets its state when it opens. Those reset states are the
constants `Payment.Opened`, `PriceEntry.Opened` and `WeightEntry.Opened`,
together with `QuantityEntry.OpenValue`. The payment dialog's reset also
runs whenever the order object it shows changes while it is open, for
example when a realtime refresh reloads the table's order. That wipes a
split payment in progress. It is the `Reset` input of `Payment.Apply`.

Behaviour of the program worth knowing:

- The weighing dialog takes the typed value as kg. It does no gram
  conversion. Only the edit dialog works in grams.
- Saving has no busy flag. No decrement-by-one operation exists, and the
  custom-price dialog is not wired into the cart.
- The take-payment button opens the payment dialog even when the save
  before it failed, because `saveOrder` catches its own error. The order
  then has no id, and completing payment does nothing
  (`Session.PaymentOpensAfterFailedSave`).
- Opening a table loads the active order whose id equals the table's
  `current_order_id`. The realtime refresh instead matches active orders by
  `table_id`.

## Model

| member | source | states |
|---|---|---|
| Keypad.ParseUnsigned | components/WeightModal.tsx:33 | `parseFloat` on unsigned keypad text is NaN exactly when no digit starts the text and it is not a dot followed by a digit; otherwise it is a non-negative number |
| Keypad.ParseNumber | components/EditQuantityModal.tsx:41 | `parseFloat` with an optional leading minus; only text starting with '-' can give a negative number |
| Keypad.ParseEdgeCases | components/PaymentModal.tsx:42 | "" and "." are NaN, "5." is 5, ".5" is 0.5 and "1.2.3" is 1.2 |
| Keypad.NatToString | components/EditQuantityModal.tsx:20 | digits of a natural number: non-empty, all digits, no leading zero, and their decimal value is the number |
| Keypad.ParseNatString | components/EditQuantityModal.tsx:41 | reading back the digits of a natural number gives that number |
| Keypad.ToFixed0 | components/EditQuantityModal.tsx:20 | `toFixed(0)` text parses back to the magnitude rounded half up, negated for negative input |
| Keypad.RoundHalfUp | components/EditQuantityModal.tsx:20 | the rounded integer is within one half of the input |
| Keypad.NumberToString | components/EditQuantityModal.tsx:23 | `toString` text starts with '-' exactly for negative numbers |
| Keypad.WholeNumberRoundTrip | components/EditQuantityModal.tsx:23 | a whole number survives `toString` followed by `parseFloat` |
| Keypad.Backspace | components/WeightModal.tsx:28-30 | the delete key of every keypad dialog: removes exactly the last character, does nothing on empty text, never adds a dot |
| Cart.AddToCart | App.tsx:277-302 | a count product already in the cart bumps the first line holding it (length unchanged, total recomputed from that line's own unit price, all other lines equal); otherwise exactly one new line is appended after unchanged earlier lines; priced carts stay priced |
| Cart.AddNewLineTotal | App.tsx:278-286 | a non-merging add raises the cart total by quantity times the product price |
| Cart.AddMergeTotal | App.tsx:289-298 | a merging add raises the total by quantity times the merged line's snapshotted unit price |
| Cart.AddTwice | App.tsx:289-301 | the same count product added twice gives one line with quantity q1+q2 and total (q1+q2) times price; a kg product gives two distinct lines |
| Cart.CartTotal | App.tsx:434 | for priced lines the cart total equals the sum of quantity times unit price |
| Cart.RemoveFromCart | App.tsx:305-307 | the result holds no line with the id and every other line of the cart; a missing id changes nothing |
| Cart.RemoveKeepsOrder | App.tsx:306 | removal works piecewise on a split cart, so the kept lines stay in order |
| Cart.RemoveIdempotent | App.tsx:306 | removing an id twice is removing it once |
| Cart.RemoveTotal | App.tsx:306 | the total drops by exactly the totals of the removed lines |
| Cart.UpdateCartItemQuantity | App.tsx:314-327 | with no edit target nothing changes; otherwise only lines with the target's id get the new quantity and quantity times unit price as total, length and all other lines preserved |
| Cart.UpdateTotal | App.tsx:317-323 | editing the single line with that id moves the cart total by that line's change |
| Store.ActiveOrders | services/supabaseService.ts:73-75 | exactly the stored orders that are neither paid nor cancelled |
| Store.ActiveOrdersKeepOrder | services/supabaseService.ts:74 | the active orders come back in store order (the filter works piecewise on a split order list), so a caller taking the first match sees the earliest stored one |
| Store.Occupy | services/supabaseService.ts:107-117 | the first table with the new order's truthy table id becomes occupied by that order; nothing else changes; occupancy stays consistent |
| Store.Release | services/supabaseService.ts:129-135 | the first table with the closed order's truthy table id becomes available with no current order; nothing else changes |
| Store.UpsertOrder | services/supabaseService.ts:78-121 | the returned order's total is its items' total, with payload items used wholesale; a known id overwrites that order in place (count, other orders and tables unchanged); an unknown id appends one order built from defaults (pending, no items, no table, fresh id) overridden by the payload and occupies its table; totals and occupancy invariants preserved |
| Store.CloseOrder | services/supabaseService.ts:123-139 | fails with "Order not found" exactly when no order has the id; otherwise that order becomes paid, its table is released, and all three invariants are preserved |
| Store.UpsertKeepsIdsUnique | services/supabaseService.ts:82-105 | with an unused fresh id, upserts keep order ids unique |
| Store.OperationsKeepConsistency | services/supabaseService.ts:86-134 | upsert and close keep totals matching, occupancy consistent and ids unique |
| Store.UpsertReplacesItems | services/supabaseService.ts:86-104 | after an upsert the order stored under the returned id holds exactly the payload items and their total |
| Store.CreateOccupiesTable | services/supabaseService.ts:108-117 | a new order bound to an existing table marks that table occupied by it and leaves all other tables unchanged |
| Store.ClosedOrderLeavesActive | services/supabaseService.ts:124-138 | after a successful close no active order carries the closed id |
| Store.CloseReleasesTable | services/supabaseService.ts:130-135 | when the first order with the id is bound to an existing table, closing succeeds and leaves that table available with no current order |
| Store.SaveProduct | services/supabaseService.ts:43-60 | a patch with an id updates the first matching product in place and never inserts; a patch without one appends one product; tables and orders unchanged |
| Store.DeleteProduct | services/supabaseService.ts:62-66 | no product with the id remains and every other product does; tables and orders unchanged |
| Store.DeleteKeepsOrder | services/supabaseService.ts:64 | deletion works piecewise on a split product list, so survivors keep their order |
| Store.SaveUpdatesOneProduct | services/supabaseService.ts:45-50 | saving a patch for a stored id rewrites only that product, which a lookup by the id still finds first |
| Store.DeleteUndoesCreate | services/supabaseService.ts:51-66 | deleting a product just created from a form without an id, under an unused fresh id, restores the store |
| Session.ReferencedOrder | App.tsx:243-244 | a table references an order exactly when the first table with that id has a truthy current order id |
| Session.SelectTable | App.tsx:238-266 | the active table is always set; the order the table references is loaded with its items as the cart; with no reference or no such active order a pending shell for the table with an empty cart is installed; a failed fetch leaves the rest untouched |
| Session.SelectTableShowsCartTotal | App.tsx:243-256 | opening a table that references an order, against a store whose totals match their lines, shows an order whose total is its cart's total |
| Session.Realtime | App.tsx:192-223 | with a signed-in session the catalog is replaced; for an active table an active order bound to it overwrites order and cart; with none, a session whose order had an id resets to an empty pending shell, and otherwise order and cart stay |
| Session.RealtimeKeepsCartTotal | App.tsx:203-210 | a refresh against a store whose totals match keeps the shown order's total equal to its cart's total |
| Session.RealtimeLoadsCreatedOrder | App.tsx:203-210 | after an upsert creates the only active order of the session's table, the next refresh loads exactly that order and its lines |
| Session.SavePayload | App.tsx:329-337 | an empty cart makes no call; otherwise the payload is the current order with the cart as items and the displayed cart total as total |
| Session.SaveOrder | App.tsx:329-352 | an empty cart or a failed upsert leaves the state unchanged; success replaces order and cart by the echo |
| Session.SaveThroughStore | App.tsx:333-341 | saving through the store leaves the cart as it was and the saved total equal to the displayed total |
| Session.PaymentComplete | App.tsx:359-375 | without an order id, or when closing fails, nothing changes; otherwise cart, order and active table are cleared, the dialog closes, and the view goes to tables once the refresh succeeds |
| Session.PayThroughStore | App.tsx:359-369 | completing payment through the store ends the session, drops the order from the active set and shows its table free |
| Session.PayButton | App.tsx:574-585 | with a non-empty cart the payment dialog opens, after saving first when the order has no id |
| Session.PaymentOpensAfterFailedSave | App.tsx:576-580 | a failed pre-save still opens the dialog, and completion then does nothing |
| Session.DeleteTableRequest | App.tsx:411-426 | an occupied table is refused and never requested for deletion; deletion is requested exactly for a confirmed non-occupied table |
| Payment.Remaining | components/PaymentModal.tsx:32 | never negative, 0 once paid reaches the total, and paid plus remaining is the total otherwise |
| Payment.AddPayment | components/PaymentModal.tsx:34-55 | view mode logs the remaining balance, sets paid to the total and signals single; an entry that is unparsable or not positive changes nothing; a valid entry is logged, added to paid, cleared and the mode returns to view; split completion is signalled exactly when paid reaches total minus 0.01 |
| Payment.NumpadPress | components/PaymentModal.tsx:57-60 | a second dot is refused, any other key appended, so the entry keeps at most one dot |
| Payment.NumpadDelete | components/PaymentModal.tsx:141 | deleting removes exactly the last character of the entry (nothing on an empty entry), never adds a dot and leaves paid, logs and mode alone |
| Payment.ApplyKeepsLedger | components/PaymentModal.tsx:35-48 | each input, including the reset, keeps logged sum equal to paid when paid does not exceed the total before it |
| Payment.LedgerBalances | components/PaymentModal.tsx:37-46 | over any run of inputs where paid is within the total before each input, logged sum equals paid; a final overpaying split payment is included |
| Payment.OpenedBalances | components/PaymentModal.tsx:21-28 | from the reset state the logged sum equals paid after any such run |
| QuantityEntry.OpenValue | components/EditQuantityModal.tsx:16-26 | a kg line opens on its quantity in whole grams; a whole-number count line opens on text that reads back as its quantity |
| QuantityEntry.KeyPress | components/EditQuantityModal.tsx:30-34 | the dot is ignored and a key is appended only while the text has at most 5 characters, so it never grows past 6 or gains a dot |
| QuantityEntry.Confirm | components/EditQuantityModal.tsx:40-51 | a value is passed exactly when the text reads as a positive number, divided by 1000 for kg lines, and it is always positive |
| QuantityEntry.KgRoundTrip | components/EditQuantityModal.tsx:18-46 | opening a kg line holding whole grams and confirming gives back its quantity |
| QuantityEntry.CountRoundTrip | components/EditQuantityModal.tsx:23-48 | the same for a count line holding a positive whole number |
| QuantityEntry.EditKgLine | components/EditQuantityModal.tsx:43-48 | typing g grams rewrites the kg line to g/1000 kg priced at its unit price |
| PriceEntry.WithoutFirstDot | components/CustomPriceModal.tsx:41 | `replace('.', '')` drops exactly one character when there is a dot |
| PriceEntry.KeyPress | components/CustomPriceModal.tsx:24-43 | a dot on empty text gives "0.", is appended to dot-free text and ignored otherwise; a digit replaces "0" and "0.", is refused at 8 digits and is appended otherwise; the buffer stays well formed |
| PriceEntry.DeleteKeepsWellFormed | components/CustomPriceModal.tsx:45-47 | deleting keeps at most one dot, at most 8 digits and no leading double zero |
| PriceEntry.Confirm | components/CustomPriceModal.tsx:49-57 | a price is passed exactly when the text reads as a positive number, and it is that number |
| PriceEntry.TypedPriceWellFormed | components/CustomPriceModal.tsx:24-43 | any typing from a well-formed buffer (the empty reset one included) stays well formed |
| WeightEntry.KeyPress | components/WeightModal.tsx:22-26 | a second dot is refused and a key is refused past 6 characters, so the text keeps at most one dot and never grows past 7 |
| WeightEntry.Confirm | components/WeightModal.tsx:32-38 | a weight is passed exactly when the text reads as a positive number, and it is that number unchanged |
| WeightEntry.Preview | components/WeightModal.tsx:40-41 | the preview is 0 for unreadable text, and for confirmable text it is the confirmed kg times the price |
| WeightEntry.WeighedLine | components/WeightModal.tsx:33-35 | confirming a kg product appends one line with the typed kg as quantity and the previewed price as total, earlier lines untouched |
| WeightEntry.NoGramConversion | components/WeightModal.tsx:33-35 | typing "250" passes 250 kg |

## Left out

- Rendering: JSX, styling, view and sidebar switching, `ProductCard`, `CartItemRow`, the toast, skeleton and confirm components, the login, product-form and table-form dialogs.
- `handleProductClick`: the routing of a kg product to the weighing dialog and of other products to `addToCart(product, 1)` is UI plumbing.
- The backend client and the realtime channel subscription. These are I/O; only the handler body is modelled, as `Session.Realtime`.
- The public menu and its waiter-call flow. Table `needs_service` is carried but never changed here.
- Gateway methods not defined in the in-memory service: `saveTable`, `deleteTable`, `getDailyOrders`, `toggleTableService` and the sign-in calls. They are opaque. The daily-orders refresh of the realtime handler is left out with them.
- `getProducts` and `getTables` are plain reads. Their result enters the model as the `Catalog` parameter.
- Concurrency and timing: the race between a realtime refresh and an in-flight save, the mock network delays, and the 500 ms completion delays. Nothing stops a second completion click inside that delay, so no "completes once" property is claimed.
- Randomness and clock: `crypto.randomUUID`, `generateId`, `generateOrderNumber` and `new Date()` become the oracle parameters `tempId` and `Store.Fresh`.
- Floating point: all arithmetic is exact. The 0.01 tolerance is kept as written.
- Display formatting: `toFixed(2)`, the receipt printer, date and locale strings, the QR-code dialog, sound notifications and the schema SQL text.
- Product `image`, `stock` and `sort_order`, and the order `is_deleted` flag. No modelled operation reads or writes them.
- The optional `notes` of an order line. No modelled operation reads or writes it.
- Payment logs: they record the method rather than its display label.
- Keypad.ParseNumber: models `parseFloat` only on text of digits, dots and one leading minus. No whitespace, '+', exponent or "Infinity" occurs in the text this program parses.
- Keypad.NumberToString: exact for whole numbers and for fractions of at most 20 decimal digits. It does not model the exponent notation JavaScript uses beyond 10^21 or below 10^-6. `Keypad.ToFixed0` likewise ignores the exponent form above 10^21.
- Store.SaveProduct: an insert requires every product field in the patch. The source casts the patch to a full product there, and the product form always sends every field.
