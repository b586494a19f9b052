# Order service: order lifecycle and stock reservation

This project models the order service of a small warehouse back end (`app/Services/OrderService.php`).

An order belongs to one warehouse, has a customer and a list of line items (product, count), and is `active`, `canceled` or `completed`. The service keeps three things in step:

- the stock table: available quantity per (product, warehouse) row;
- an append-only log of stock movements: product, warehouse, signed change, cause;
- the orders.

It offers five operations:

- **create** reserves every item;
- **update** can rename the customer and/or replace the items: all old items are returned, then the new ones are reserved;
- **cancel** returns every item;
- **resume** reserves every item again;
- **complete** sets the completion time.

Every reservation is a checked decrement. A row that is missing, or that holds less than the count, raises an insufficient-stock error naming the product, the count asked for and what the row holds (none when there is no row). Every operation but complete runs in one database transaction, so any error leaves everything as it was.

The model has five modules:

- `Types` holds the entities, the two data-transfer objects and the errors.
- `Ledger` holds the stock ledger as values:
  - one checked decrement (`Debit`), the item-by-item reservation (`Reserve`), the unchecked return (`ReturnAll`) and the unlocked pre-check (`PreCheck`);
  - the movements each of them logs;
  - the demand of an item list on a row, and the signed sum of the log on a row.
- `Lifecycle` holds the five operations as functions of a whole database value `Db`, the status transition table, and the invariants every operation keeps:
  - no row is negative;
  - orders are stored under their own ids;
  - every line item has a stock row;
  - each row equals its seed plus the signed sum of its movements.
- `Service` is the service itself. `OrderService` is a class whose fields are the stock table, the movement log, the orders and the next order id. Its methods change them one row, one movement and one line item at a time, in the same loops as the source. A ghost constant keeps the seeded table, and the class invariant `Valid` holds the standing invariant, the stock-row coverage of line items and the reconciliation of the table with the log against that seed. A transaction is a snapshot of the fields taken when it opens, and an error restores it. Each public method is proved to leave the fields and return the result exactly as the matching `Lifecycle` function says.
- `Holdings` and `History` cover whole runs from a freshly seeded table, for any sequence of requests:
  - `RunPreserves` proves that after any run no row is negative and the table reconciles with the movement log.
  - `Holdings` proves a stronger balance: each row equals its seed less what the orders that are not canceled hold on it. Every operation keeps this balance except one. Updating the items of a canceled order (`updateOrder` has no status check) hands back items that canceling already returned. `UpdateCanceledUnbalances` shows the table is then off, and `RunBalanced` proves the balance for every run that avoids that request.
  - Three scenarios are proved: one order's full lifecycle against a stock of twenty; a second order refused with "6 requested, 4 available"; and one order asking twice for six against ten, which passes the unlocked pre-check and is refused by the second locked check.

Decisions:

- `returnItemsToStock` increments with no check that the row exists. The model reproduces that case explicitly: the row stays missing, but the movement is still logged. The invariant `Stocked` proves this cannot happen in a reachable state.
- The source lets `cancelOrder` start from a `completed` order, although the error message speaks only of active orders. The model follows the code: the transition table has (completed, cancel, canceled). Resuming such an order then makes it active again while it keeps its completion time; `CancelResumeRoundTrip` states this.
- Order ids start at 1 and grow by one for each created order.

## Model

| member | source | states |
|---|---|---|
| Ledger.Debit | app/Services/OrderService.php:237-245 | the locked check of checkAndLockStock followed by the decrement: it succeeds exactly when the row exists and holds at least the count; otherwise the error carries product, count and the row's value or none; a success keeps the rows and leaves the row nonnegative |
| Ledger.Reserve | app/Services/OrderService.php:206-224 | a failed reservation is an insufficient-stock error for one of the listed items, with available below requested when the row exists; success keeps the set of rows |
| Ledger.Credit | app/Services/OrderService.php:267-269 | an unchecked increment never adds or removes a row |
| Ledger.ReturnAll | app/Services/OrderService.php:263-279 | returning items never adds or removes a row |
| Ledger.PreCheck | app/Services/OrderService.php:288-303 | a reported shortage is an insufficient-stock error for a listed item, with that item's count and the row's value or none, and an available value is below the count |
| Ledger.Outgoing | app/Services/OrderService.php:248-253 | one movement per item, in item order, with the item's product, the warehouse, minus its count and the cause |
| Ledger.Incoming | app/Services/OrderService.php:272-277 | one movement per item, in item order, with plus its count |
| Ledger.DemandNonNegative | app/Http/Requests/StoreOrderRequest.php:21 | with positive counts, no list demands a negative amount of a row |
| Ledger.DemandCoversItem | app/Services/OrderService.php:208-215 | a list demands of an item's row at least that item's count |
| Ledger.ReserveEffect | app/Services/OrderService.php:208-215 | a successful reservation lowers every row by exactly the list's demand on it |
| Ledger.ReserveKeepsNonNegative | app/Services/OrderService.php:185-191 | a successful reservation of a nonnegative table leaves it nonnegative |
| Ledger.ReserveSucceedsIff | app/Services/OrderService.php:206-224 | a reservation succeeds if and only if every row drawn on exists and holds the list's whole demand on it |
| Ledger.ReserveFailsAt | app/Services/OrderService.php:208-215 | the first item whose decrement fails decides the reservation's error |
| Ledger.PreCheckPassesIff | app/Services/OrderService.php:290-302 | the pre-check passes if and only if every item's row exists and holds at least that item's count |
| Ledger.PreCheckFailsAt | app/Services/OrderService.php:290-302 | the first item that does not fit decides the pre-check's error |
| Ledger.ReservePassesPreCheck | app/Services/OrderService.php:31-43 | whatever reserves successfully also passes the pre-check |
| Ledger.ReturnEffect | app/Services/OrderService.php:265-269 | returning raises every existing row by exactly the list's demand on it |
| Ledger.ReturnKeepsNonNegative | app/Services/OrderService.php:265-269 | returning items with positive counts keeps the table nonnegative |
| Ledger.ReserveAfterReturn | app/Services/OrderService.php:103 | reserving exactly what was returned restores the table |
| Ledger.NetAppend | app/Services/OrderService.php:248-253 | the log's signed sum on a row is additive over appended movements |
| Ledger.NetOutgoing | app/Services/OrderService.php:248-253 | the movements of a reservation sum, per row, to minus its demand |
| Ledger.NetIncoming | app/Services/OrderService.php:272-277 | the movements of a return sum, per row, to plus its demand |
| Lifecycle.Create | app/Services/OrderService.php:29-48 | an error leaves the database unchanged and is an insufficient-stock error naming the product and count of one of the items, with an available value always below the count; a success adds the active order under the next id with the given items in order, increments the id and logs one outgoing movement per item |
| Lifecycle.Rename | app/Services/OrderService.php:64-67 | renaming touches neither stock, movements, next id nor the set of orders |
| Lifecycle.Replace | app/Services/OrderService.php:70-79 | the item part of an update: a failure changes nothing and is an insufficient-stock error for one of the new items, with an available value always below the count; a success replaces exactly the order's items, keeps the set of rows and the next id; its stock effect and log are stated by Lifecycle.UpdateStock and Lifecycle.UpdateFields |
| Lifecycle.CreatePreCheckFailsAt | app/Services/OrderService.php:288-303 | when item i is the first that does not fit the unchanged table, the create fails with exactly that item's error and changes nothing |
| Lifecycle.CreateLockedCheckFailsAt | app/Services/OrderService.php:185-191 | after a passing pre-check, when item i is the first whose locked check fails after the earlier items were reserved, the create fails with exactly that item's error against the partly reserved row and changes nothing |
| Lifecycle.ReplaceFailsAt | app/Services/OrderService.php:70-79 | when new item i is the first that does not fit after the old items are returned and the earlier new ones reserved, the replacement fails with exactly that item's error and changes nothing |
| Lifecycle.Update | app/Services/OrderService.php:60-84 | rename, then replace the items when a list is given, in one transaction: a failure needs an item list and changes nothing, a success keeps the next id, the set of orders and the set of rows; the remaining properties are stated by Lifecycle.UpdateFields and Lifecycle.UpdateStock |
| Lifecycle.UpdateFields | app/Services/OrderService.php:60-84 | an update fails only with a shortage on a given item list and then changes nothing, including the customer; without items it touches neither stock nor movements; on success only the order changes, its customer exactly when one is given and its items exactly when a list is given; the log gets the returns then the new reservations |
| Lifecycle.Cancel | app/Services/OrderService.php:94-110 | cancel succeeds exactly when the table permits it (active or completed); otherwise CannotCancelOrder with nothing changed; on success the order is canceled with its items kept, every item is returned and one incoming movement per item is logged |
| Lifecycle.Resume | app/Services/OrderService.php:121-142 | resume from any status but canceled is CannotResumeOrder with nothing changed; any error changes nothing; a shortage on a canceled order is an insufficient-stock error naming the product and count of one of its items, with an available value always below the count; on success the order is active and one outgoing movement per item is logged |
| Lifecycle.Complete | app/Services/OrderService.php:152-164 | complete succeeds exactly when the order is active; otherwise CannotCompleteOrder; stock and movements never change; on success the order is completed at the given time |
| Lifecycle.CreateStock | app/Services/OrderService.php:31-46 | an order is created if and only if every row it draws on holds its whole demand; the rows then drop by exactly that demand |
| Lifecycle.UpdateStock | app/Services/OrderService.php:70-79 | an item update succeeds if and only if every new row holds the new demand plus what the old items give back; each row then moves by old demand minus new demand |
| Lifecycle.ResumeFailsAt | app/Services/OrderService.php:130-137 | when item i of a canceled order is the first that does not fit after the items before it are reserved again, the resume fails with exactly that item's error and changes nothing |
| Lifecycle.ResumeStock | app/Services/OrderService.php:128-141 | a canceled order resumes if and only if its whole demand fits again; the rows then drop by it; a shortage is an insufficient-stock error |
| Lifecycle.UpdateEmptyReturnsAll | app/Services/OrderService.php:70-79 | an update with an empty item list, in any status, succeeds, keeps the status, leaves no items and raises every row by the old demand |
| Lifecycle.CancelResumeRoundTrip | app/Services/OrderService.php:94-142 | cancel then resume of an active or completed order succeeds and restores the stock table exactly; the order comes back active with everything else kept (a completed one keeps its completion time), an active one exactly as it was; the log gains the returns then the reservations |
| Lifecycle.CreatePreserves | app/Services/OrderService.php:29-48 | create keeps the standing invariant, the stock-row coverage of line items and the reconciliation of the table with the log |
| Lifecycle.UpdatePreserves | app/Services/OrderService.php:60-84 | update keeps the same three invariants |
| Lifecycle.CancelPreserves | app/Services/OrderService.php:94-110 | cancel keeps the same three invariants |
| Lifecycle.ResumePreserves | app/Services/OrderService.php:121-142 | resume keeps the same three invariants |
| Lifecycle.CompletePreserves | app/Services/OrderService.php:152-164 | complete keeps the same three invariants |
| Holdings.HeldFrame | app/Services/OrderService.php:94-142 | the total held depends only on the terms of the orders counted |
| Holdings.HeldSet | app/Services/OrderService.php:94-142 | changing one order changes the total held by the change of its own term |
| Holdings.HeldExtend | app/Services/OrderService.php:35-43 | a new order under the next id adds its own term to the total held |
| Holdings.CreateBalanced | app/Services/OrderService.php:29-48 | create keeps each row equal to its seed less what the non-canceled orders hold |
| Holdings.CancelBalanced | app/Services/OrderService.php:94-110 | cancel, from active or from completed, keeps the balance |
| Holdings.ResumeBalanced | app/Services/OrderService.php:121-142 | resume keeps the balance |
| Holdings.CompleteBalanced | app/Services/OrderService.php:152-164 | complete keeps the balance |
| Holdings.UpdateBalanced | app/Services/OrderService.php:60-84 | update keeps the balance unless it replaces the items of a canceled order |
| Holdings.UpdateCanceledUnbalances | app/Services/OrderService.php:70-79 | clearing the items of a canceled order that lists a seeded row breaks the balance |
| History.Fresh | database/seeders/StockSeeder.php:17-25 | a database holding only a nonnegative seeded stock table already meets the standing invariant, the row coverage, the reconciliation with the (empty) log and the balance |
| History.Step | app/Services/OrderService.php:29-164 | a request the request rules or the order lookup reject leaves the database unchanged; any request keeps the set of stock rows, deletes no order, raises the next id by at most one and only appends to the movement log |
| History.StepPreserves | app/Services/OrderService.php:29-164 | every request keeps the three invariants |
| History.StepBalanced | app/Services/OrderService.php:29-164 | every request but an item update of a canceled order keeps the balance |
| History.RunPreserves | app/Services/OrderService.php:243-277 | after any run from a nonnegative seed no row is negative, every line item has a row, and every row is its seed plus the signed sum of its movements |
| History.RunBalanced | app/Services/OrderService.php:60-164 | after any run that never replaces the items of a canceled order, every row is its seed less what the non-canceled orders hold |
| History.OneOrderLifecycle | app/Services/OrderService.php:29-164 | with twenty on hand, an order for five takes the row to fifteen, cancel to twenty, resume to fifteen, complete sets the time; complete and resume are then refused |
| History.LockedShortage | app/Services/OrderService.php:185-191 | ten on hand and one order for six twice: the pre-check passes, the second locked check is refused with six requested and four available, and nothing changes |
| History.Shortage | app/Exceptions/InsufficientStockException.php:12-16 | with ten on hand, a second order for six is refused with product, six requested and four available, and changes nothing |
| Service.OrderService.constructor | database/seeders/StockSeeder.php:17-25 | the service starts with the seeded table, no movements, no orders and ids from one |
| Service.OrderService.Rollback | app/Services/OrderService.php:31 | aborting a transaction restores every field to the snapshot |
| Service.OrderService.CheckAndLockStock | app/Services/OrderService.php:176-194 | success exactly when the row exists and holds the quantity, returning the row; otherwise the insufficient-stock error with the row's value or none |
| Service.OrderService.DecrementStockAndCreateMovement | app/Services/OrderService.php:237-254 | a checked decrement: on success the row drops by the quantity and one negative movement is logged; on failure nothing changes |
| Service.OrderService.ProcessOrderItems | app/Services/OrderService.php:206-224 | on success every item is reserved, logged and appended to the order's line items in order; on a shortage it stops at the first failing item with exactly the items before it applied |
| Service.OrderService.ReturnItemsToStock | app/Services/OrderService.php:263-279 | every line item is returned and logged with a positive movement, a missing row left missing |
| Service.OrderService.ValidateStockAvailability | app/Services/OrderService.php:288-303 | changes nothing and reports a shortage if and only if some item's row is missing or holds less than its count, naming the first |
| Service.OrderService.CreateOrder | app/Services/OrderService.php:29-48 | the new state and result are those of Lifecycle.Create and the class invariant (standing invariant, row coverage, reconciliation with the log) holds |
| Service.OrderService.UpdateOrder | app/Services/OrderService.php:60-84 | the new state and result are those of Lifecycle.Update and the class invariant (standing invariant, row coverage, reconciliation with the log) holds |
| Service.OrderService.ReplaceItems | app/Services/OrderService.php:70-79 | return all, clear, reserve anew: the result and, on success, the state of the item part of an update |
| Service.OrderService.CancelOrder | app/Services/OrderService.php:94-110 | the new state and result are those of Lifecycle.Cancel and the class invariant (standing invariant, row coverage, reconciliation with the log) holds |
| Service.OrderService.ResumeOrder | app/Services/OrderService.php:121-142 | the new state and result are those of Lifecycle.Resume and the class invariant (standing invariant, row coverage, reconciliation with the log) holds |
| Service.OrderService.CompleteOrder | app/Services/OrderService.php:152-164 | the new state and result are those of Lifecycle.Complete and the class invariant (standing invariant, row coverage, reconciliation with the log) holds |

## Left out

- Concurrency, `DB::transaction` and `lockForUpdate`: each operation is one sequential step, and rollback restores a snapshot. Overselling between concurrent requests is a property of the database and is not modelled.
- The order lookup (route model binding): every service method requires the order to exist. `History.Step` leaves the database unchanged for an unknown id.
- The request rules: item counts of at least one, and at least one item on create, are preconditions. The `exists:` checks on products and warehouses are database lookups and are not modelled.
- The HTTP controllers, routes and JSON rendering. One controller fact matters: on update, the controller passes `[]` for absent items and the current customer for an absent customer (`app/Http/Controllers/api/OrderController.php:102-113`). So an HTTP update without items clears the order; `Lifecycle.UpdateEmptyReturnsAll` states what that does.
- The wall clock (`now()`, `Carbon::now()`): creation and completion times are parameters.
- Line items as separate rows with their own ids: an order's items are a sequence inside the order. Movement ids and timestamps are not modelled.
- Lifecycle.Update: its postcondition states the rollback and the frame only; what it does to the order's fields and to the log is stated by the lemma `Lifecycle.UpdateFields`, and what it does to stock by `Lifecycle.UpdateStock`.
- Order id allocation: ids are modelled as dense, from 1, taken only by a create that commits. In the source, `Order::create` takes an auto-increment id inside the transaction (`app/Services/OrderService.php:35`); when a later item of the same create fails its locked check, the database engine usually does not hand that id back, so real ids only increase and may have gaps. The model does not capture those gaps.
- Integer width: stock quantities, counts and ids are unbounded integers, whereas PHP integers and the stock column are bounded. Repeated item updates of a canceled order can raise a row without limit; the model does not capture an overflow of the column.
- Listing, filtering and pagination; the Eloquent models, migrations and seeders.
