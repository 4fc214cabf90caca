# Order creation in a small TypeORM e-commerce API, in Dafny

This project models the order-creation use case `CreateOrderService.execute`.
A request names a customer and a list of product lines, each an id and a quantity.
The use case does the following, in order:

- looks up the customer;
- fetches the requested products in one call to the product store;
- refuses the request if nothing was fetched, if a requested id was not fetched,
  or if a line asks for more than the stock of its product;
- builds one line item per requested line, priced from the fetched product;
- stores the order;
- writes the new stock levels (the fetched stock minus each line's quantity) in one
  bulk update.

The thrown `AppError`s become a `Result` with four error kinds:
`CustomerNotFound`, `NoProductsFound`, `ProductNotFound` and `InsufficientStock`.

Files:

- `entities.dfy` (module `Entities`): the request, catalog entries, line items,
  stock updates, customers, orders, the error kinds and `Result`.
- `order_steps.dfy` (module `OrderSteps`): the pure list steps of the use case.
  These are the existence filter, the stock filter, the lookup
  `filter(p => p.id === id)[0]`, the serialized line items and the new quantities.
  Each comes with lemmas tying it to a plain statement of what it computes.
- `repositories.dfy` (module `Repositories`): the three stores as one class
  `Stores`. Its fields are the customers, the catalog, the orders and a log of the
  calls made. Its methods are the four store operations the use case calls. It also
  holds the functions that specify them: `ProductsWithIds` for `findAllById` and
  `ApplyUpdates` for `updateQuantity`.
- `order_service.dfy` (module `OrderService`): the class `CreateOrderService`.
  Its `Execute` method runs the use case step by step against a `Stores` object.
  It is proved equal to the function `ExecuteSpec` on the stores' state. The
  properties of a call are proved as lemmas about `ExecuteSpec`:
  - which error is returned for which stores and request;
  - that a refusal writes nothing;
  - the exact sequence of store calls;
  - the line items;
  - the stock written and the stock that results.
- `scenarios.dfy` (module `OrderScenarios`): concrete runs on a catalog holding
  one product.

How the model resolves the points the code leaves open:

- **Customer lookup.** The code refuses the request when the customer is absent,
  even though its message says "This customer already exists". The model follows
  the check. The error kind is `CustomerNotFound`.
- **Unknown products.** A request whose ids are all unknown fetches nothing. It is
  therefore refused with `NoProductsFound`, not with `ProductNotFound` (lines
  43-49 run before the existence check). `ProductNotFound` needs at least one
  known id and at least one unknown id. `ErrorKinds` and `UnknownProductsOnly`
  state this. An empty request also fetches nothing and is refused with
  `NoProductsFound`.
- **Duplicate request lines.** Each line is checked against the stock as fetched,
  not against what earlier lines have already taken. The stock write holds one
  entry per line, each equal to the fetched stock minus that line's quantity. So
  two lines of 6 against a stock of 10 pass the check, and the stock ends at 4
  (`DuplicateLinesOversell`). In general, the stock ends at the old stock minus
  the quantity of the last line naming the product (`StockAfterOrder`).

## Model

| member | source | states |
|---|---|---|
| OrderSteps.FirstIndex | src/modules/orders/services/CreateOrderService.ts:65 | the position found is the first fetched product with the id, or the end of the list when no product has it |
| OrderSteps.FirstIndexFound | src/modules/orders/services/CreateOrderService.ts:51-57 | the search succeeds exactly when the id is among the fetched ids (`existentProductsIds.includes`) |
| OrderSteps.Inexistent | src/modules/orders/services/CreateOrderService.ts:55-61 | the existence filter comes back empty exactly when every requested id was fetched |
| OrderSteps.InexistentMembers | src/modules/orders/services/CreateOrderService.ts:55-57 | the existence filter keeps exactly the requested lines whose id was not fetched |
| OrderSteps.MatchingHead | src/modules/orders/services/CreateOrderService.ts:65 | `filter(p => p.id === id)` is non-empty exactly when the search succeeds, and its head is the first fetched product with the id |
| OrderSteps.MatchingNonEmpty | src/modules/orders/services/CreateOrderService.ts:65 | `filter(p => p.id === id)[0]` is in bounds exactly when the id was fetched |
| OrderSteps.FirstMatch | src/modules/orders/services/CreateOrderService.ts:65 | the lookup returns the first fetched product with the id, and that product has the id |
| OrderSteps.ExistenceCheckGuardsLookups | src/modules/orders/services/CreateOrderService.ts:55-67 | once the existence filter is empty, every lookup `filter(...)[0]` over a requested id is in bounds |
| OrderSteps.AvailableStep | src/modules/orders/services/CreateOrderService.ts:63-67 | the stock condition holds for a request exactly when it holds for its first line and for the remaining lines |
| OrderSteps.Unavailable | src/modules/orders/services/CreateOrderService.ts:63-71 | the stock filter comes back empty exactly when no line asks for more than the stock of its first fetched match |
| OrderSteps.Serialize | src/modules/orders/services/CreateOrderService.ts:73-77 | one line item per requested line, in order, copying id and quantity, priced from the first fetched match |
| OrderSteps.NewQuantities | src/modules/orders/services/CreateOrderService.ts:86-91 | one update per line item, in order: its product id, and the stock of its first fetched match minus the item's quantity |
| Repositories.FetchedMembers | src/modules/orders/services/CreateOrderService.ts:43-45 | the fetched products are exactly the catalog entries whose id is requested |
| Repositories.FetchedMatching | src/modules/orders/services/CreateOrderService.ts:65 | for a requested id, filtering the fetched list by that id gives the same result as filtering the catalog |
| Repositories.FetchedFirstMatch | src/modules/orders/services/CreateOrderService.ts:43-45 | a requested id was fetched exactly when the catalog has it, and its first fetched match is its first catalog entry |
| Repositories.FetchedEmpty | src/modules/orders/services/CreateOrderService.ts:43-49 | the fetch is empty exactly when no requested id is in the catalog |
| Repositories.SetQuantity | src/modules/orders/services/CreateOrderService.ts:93 | one update leaves the catalog's length unchanged |
| Repositories.ApplyUpdates | src/modules/orders/services/CreateOrderService.ts:93 | the bulk update keeps the catalog's length, and every entry's id and price |
| Repositories.ApplyUpdatesUntouched | src/modules/orders/services/CreateOrderService.ts:93 | an entry that no update names is left as it was |
| Repositories.ApplyUpdatesLast | src/modules/orders/services/CreateOrderService.ts:93 | an entry named by updates takes the quantity of the last such update |
| Repositories.Stores.constructor | src/modules/orders/services/CreateOrderService.ts:22-29 | the stores start with the given customers and catalog, no orders and an empty log |
| Repositories.Stores.FindById | src/modules/orders/services/CreateOrderService.ts:35-37 | returns the customer with that id if there is one, otherwise none; logs the lookup and changes nothing else |
| Repositories.Stores.FindAllById | src/modules/orders/services/CreateOrderService.ts:43-45 | returns the catalog entries whose id is requested; logs the lookup and changes nothing else |
| Repositories.Stores.Create | src/modules/orders/services/CreateOrderService.ts:79-84 | appends one order for the customer whose order products are the submitted items, and logs the write |
| Repositories.Stores.UpdateQuantities | src/modules/orders/services/CreateOrderService.ts:93 | the catalog becomes the old catalog with the updates applied; the write is logged |
| OrderService.ChecksMeaning | src/modules/orders/services/CreateOrderService.ts:47-71 | each outcome of the three product checks, with both directions of each condition |
| OrderService.ExecuteSpec | src/modules/orders/services/CreateOrderService.ts:31-96 | customers never change and the log only grows; a refusal leaves catalog and orders as they were; a success appends exactly the returned order and needs a known customer |
| OrderService.CreateOrderService.constructor | src/modules/orders/services/CreateOrderService.ts:22-29 | the service holds the stores it is given |
| OrderService.CreateOrderService.Execute | src/modules/orders/services/CreateOrderService.ts:31-96 | the stores and the result after a call are those `ExecuteSpec` gives for the stores before the call; a refusal changes neither catalog nor orders |
| OrderService.SuccessUnfolds | src/modules/orders/services/CreateOrderService.ts:73-95 | a success fetched something and found every id; it returns the new order, appends it, writes the new quantities and logs the four calls |
| OrderService.SuccessAvailable | src/modules/orders/services/CreateOrderService.ts:63-71 | a success passed the stock check on what it fetched |
| OrderService.CustomerAbsentStopsFirst | src/modules/orders/services/CreateOrderService.ts:35-41 | an absent customer is refused after the customer lookup alone: no product lookup and no write |
| OrderService.FetchedLines | src/modules/orders/services/CreateOrderService.ts:43-57 | for every requested line, it was fetched exactly when the catalog has its id, and its match is the first catalog entry |
| OrderService.ErrorKinds | src/modules/orders/services/CreateOrderService.ts:35-71 | each of the four refusals, and success, happens exactly under its own condition on the customers and the catalog before the call |
| OrderService.AvailableInCatalog | src/modules/orders/services/CreateOrderService.ts:63-67 | the stock check on the fetched products is the same as the stock check on the catalog's first entries |
| OrderService.CallOrder | src/modules/orders/services/CreateOrderService.ts:35-93 | a success makes the customer lookup, the product lookup, one order write and then one stock write, in that order; a refusal makes no write |
| OrderService.LineItemsFollowRequest | src/modules/orders/services/CreateOrderService.ts:73-84 | the order is numbered after the stored orders and belongs to the customer looked up; its items follow the request line by line, priced from the catalog |
| OrderService.UpdateAt | src/modules/orders/services/CreateOrderService.ts:86-91 | the update for line i is that line's product with its first catalog entry's stock minus the line's quantity |
| OrderService.UpdateNonNegative | src/modules/orders/services/CreateOrderService.ts:63-91 | once the stock check passes, no new quantity is negative |
| OrderService.StockUpdatesFromFetch | src/modules/orders/services/CreateOrderService.ts:86-93 | the last call of a success is the stock write: one entry per line, the pre-order stock minus the line's quantity, never negative |
| OrderService.DecrementAt | src/modules/orders/services/CreateOrderService.ts:86-93 | with unique ids, a product ends with its old stock minus the quantity of the last line naming it, never negative |
| OrderService.StockAfterOrder | src/modules/orders/services/CreateOrderService.ts:86-93 | on success, with unique ids, a requested product ends with its old stock minus its last line's quantity, never negative |
| OrderService.StockUntouched | src/modules/orders/services/CreateOrderService.ts:93 | on success, a product that no line names keeps its stock |
| OrderService.CatalogShapeKept | src/modules/orders/services/CreateOrderService.ts:86-93 | a call never adds, removes or renames catalog entries nor changes a price, so ids stay unique |
| OrderScenarios.OrderThree | src/modules/orders/services/CreateOrderService.ts:31-96 | 3 of a product in stock 10 at price 500 gives one line item at 500, and stock 7 remains |
| OrderScenarios.OrderEleven | src/modules/orders/services/CreateOrderService.ts:63-71 | 11 of a product in stock 10 is refused for insufficient stock |
| OrderScenarios.DuplicateLinesOversell | src/modules/orders/services/CreateOrderService.ts:63-93 | two lines of 6 against stock 10 are accepted, and the stock ends at 4 |
| OrderScenarios.DuplicateLinesChecks | src/modules/orders/services/CreateOrderService.ts:63-71 | the duplicated request passes the existence and stock checks |
| OrderScenarios.DuplicateLinesWrites | src/modules/orders/services/CreateOrderService.ts:73-93 | the duplicated request's line items, its stock write of 4 and 4, and the resulting stock of 4 |
| OrderScenarios.UnknownProductsOnly | src/modules/orders/services/CreateOrderService.ts:43-49 | a request naming only an unknown product is refused because nothing was fetched |
| OrderScenarios.OneUnknownProduct | src/modules/orders/services/CreateOrderService.ts:51-61 | a request with one known and one unknown product is refused by the existence check |

## Left out

- Dependency injection and decorators (lines 1-29): wiring only. The service is
  given a `Stores` object.
- Asynchrony: every store call is modelled as a synchronous step. Concurrent
  executions and the lost-update race between two orders for the same product
  are not modelled.
- Error message texts: the four errors are kinds without strings.
- The repository implementations are not part of this model. Each is given the
  behaviour the use case relies on:
  - `findAllById` returns the catalog entries with a requested id, in catalog order.
  - `create` numbers the order after the stored orders, standing for a generated
    id, and echoes the submitted items back as `order_products`.
  - `updateQuantity` applies the updates in order, so for a repeated id the last
    one wins.
- The three repositories are bundled into one `Stores` object, so that one log
  records the order of calls across them. Aliasing between separate repository
  objects is not modelled.
- A failing store call (a rejected promise) is not modelled. There is therefore no
  state where the order was written but stock was not, and there is no
  compensation step.
- Prices are kept as integers that are only copied. Quantities are unbounded
  integers: the source never checks their sign or integrality, and neither does
  the model.
- Repositories.SetQuantity: its contract states only the length; what it does to
  each entry is stated by ApplyUpdatesUntouched and ApplyUpdatesLast.
