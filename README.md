# DrivePizza order core in Dafny

This project models the order side of a small restaurant backend (FastAPI over SQLite). It covers:

- the product catalog and its price lookup;
- placing an order: every line item is checked against the catalog, the total is summed, the item list is stored as JSON and the order starts out "pending";
- cancelling an order, hard-deleting it, and the active and full order listings;
- the JSON item codec of the order record;
- the three small repositories (orders, reservations, payments) that create, fetch, filter, re-status and delete rows of their table.

Every table is a class holding a `map<int, Record>` from primary key to row, plus a counter that hands out fresh ids. Rows are datatype values. An in-place assignment such as `order.status = "cancelled"` becomes an update of that map entry. Raised `HTTPException`s become `Err` values of a `Result`. A repository's `None` becomes `Option.None`.

Files, one module each:

- `wrappers.dfy` (`Wrappers`): `Option` and `Result`.
- `tables.dfy` (`Tables`): the id-ordered `SELECT ... WHERE` that every list query uses, with its exactness lemmas.
- `catalog.dfy` (`Catalog`): app/domain/models/product.py.
- `order_model.dfy` (`OrderModel`): app/domain/models/order.py and `OrderItem` of app/domain/schemas/order.py.
- `orders_endpoint.dfy` (`OrdersEndpoint`): app/api/v1/endpoints/orders.py.
- `order_repository.dfy`, `reservation_repository.dfy`, `payment_repository.dfy` (`OrderRepo`, `ReservationRepo`, `PaymentRepo`): the three repositories. Their rows use the record layout of app/domain/models.py and app/domain/schemas.py, the modules the repositories import.

Units and representations:

- Money is integer cents: Pizza 1099, Hamburguesa 899, Ensalada 799, Refresco 199, Papas fritas 399.
- Times are integer seconds, passed in as `now`.
- The items column is a JSON value (`OrderModel.Json`), not JSON text.

The code has no quantity check, no empty-order rejection, no client or date filter, no ORDER BY and no revenue or top-products summary; the model follows the code:

- an item's quantity is any integer;
- an empty item list is accepted with total 0;
- cancelling accepts any status other than "cancelled";
- `update_status` writes any string.

## Model

| member | source | states |
|---|---|---|
| `Catalog.GetProductPrice` | app/domain/models/product.py:18-21 | a name is accepted exactly when it is a catalog key; the price returned is that key's entry; any other name fails with `UnknownProduct(name)` |
| `Catalog.Find` | app/domain/models/product.py:19-21 | dictionary lookup finds nothing exactly when the name is not a key, and otherwise returns the price of an entry with that name |
| `Catalog.PriceOfEveryEntry` | app/domain/models/product.py:10-21 | for every catalog entry, `get_product_price(name)` returns exactly that entry's price |
| `Catalog.CatalogShape` | app/domain/models/product.py:10-16 | the catalog has five entries with distinct names and positive prices |
| `Catalog.LookupIsCaseSensitive` | app/domain/models/product.py:19 | "Pizza" is priced 1099 and "pizza" is rejected |
| `Catalog.EnumMatchesCatalog` | app/domain/models/product.py:3-16 | a string is a catalog key exactly when it is the value of some `ProductEnum` member |
| `OrderModel.Order.SetItems` | app/domain/models/order.py:16-17 | after `set_items(xs)` the column decodes to `xs`, and no field other than `items` differs |
| `OrderModel.Order.GetItems` | app/domain/models/order.py:19-20 | a set column is returned as stored; an empty or unset column reads as the empty item list |
| `OrderModel.RoundTrip` | app/api/v1/endpoints/orders.py:28-46 | decoding the encoded item list gives back exactly the input items, in order |
| `OrderModel.ListRoundTrip` | app/api/v1/endpoints/orders.py:28-31 | element by element, each encoded item object decodes back to its `(product, quantity)` pair |
| `OrderModel.ItemRoundTrip` | app/api/v1/endpoints/orders.py:28-31 | one `{"product", "quantity"}` object decodes back to its item |
| `OrderModel.DumpInjective` | app/api/v1/endpoints/orders.py:28-31 | two item lists with the same encoding are equal |
| `OrderModel.SetThenGet` | app/domain/models/order.py:16-20 | `get_items` after `set_items(xs)` decodes to `xs` |
| `OrderModel.LoadList` | app/api/v1/endpoints/orders.py:46 | decoding succeeds exactly when every element decodes as an item; the result has one item per element, item i being element i decoded |
| `OrderModel.LoadItems` | app/api/v1/endpoints/orders.py:46 | a column decodes exactly when it is an array whose every element decodes as an item; item i of the result is element i decoded |
| `OrderModel.LoadItem` | app/domain/schemas/order.py:5-7 | a JSON value is an item exactly when it is an object whose "product" is a string and whose "quantity" is an integer, and the item carries those two values |
| `OrderModel.Member` | app/api/v1/endpoints/orders.py:46 | key lookup in a decoded object finds nothing exactly when no member has the key, and otherwise yields the value of the last member with that key |
| `OrderModel.ItemJson` | app/api/v1/endpoints/orders.py:28-31 | one item is written as an object whose "product" is the item's product and whose "quantity" is its quantity |
| `OrderModel.DumpList` | app/api/v1/endpoints/orders.py:28-31 | one object per item, in item order |
| `OrderModel.DumpItems` | app/domain/models/order.py:17 | the stored column is an array holding, at position i, the object written for item i |
| `OrderModel.NewOrder` | app/domain/models/order.py:9-14 | a new row carries the given id, client, items and total, the creation time as date and the default status "pending" |
| `OrdersEndpoint.SubtotalAppend` | app/api/v1/endpoints/orders.py:16-20 | the total Σ price × quantity is additive over concatenated item lists, so adding one line at a time, as the loop does, gives the sum over all items |
| `OrdersEndpoint.LineTotal` | app/api/v1/endpoints/orders.py:19-20 | one line costs the price of the catalog entry named by its product times its quantity |
| `OrdersEndpoint.Subtotal` | app/api/v1/endpoints/orders.py:16-20 | the total of no items is 0, and a total over non-negative quantities is never negative |
| `OrdersEndpoint.OneLine` | app/api/v1/endpoints/orders.py:19-20 | a one-item order from the catalog totals that product's price times the quantity |
| `OrdersEndpoint.ThreePizzas` | app/api/v1/endpoints/orders.py:16-20 | three pizzas total 3297 cents |
| `OrdersEndpoint.StatusCode` | app/api/v1/endpoints/orders.py:120-131 | exactly an unknown order is answered with 404 (also at lines 93-94); an order already cancelled, like an unknown product at lines 22-23, is answered with 400 |
| `OrdersEndpoint.Respond` | app/api/v1/endpoints/orders.py:139 | a response keeps the row's id, date, client, total and status, and its items are the row's items column decoded |
| `OrdersEndpoint.AvailableProducts` | app/api/v1/endpoints/orders.py:76-83 | one entry per catalog entry, in catalog order; each is priced as the lookup prices it; its names are exactly the catalog keys |
| `OrdersEndpoint.OrderStore.CreateOrder` | app/api/v1/endpoints/orders.py:12-47 | succeeds exactly when every product is known; otherwise it fails for the first unknown item and changes nothing; on success it adds one row under a fresh id with status "pending", date `now`, the encoded items and total Σ price × quantity, and answers with the input items |
| `OrdersEndpoint.OrderStore.CancelOrder` | app/api/v1/endpoints/orders.py:113-140 | absent id gives NotFound and an already cancelled order gives AlreadyCancelled, both with no change; otherwise only that row's status becomes "cancelled" |
| `OrdersEndpoint.OrderStore.DeleteOrder` | app/api/v1/endpoints/orders.py:85-104 | absent id gives NotFound with no change; otherwise exactly that row is removed and its last state returned; afterwards the id is absent |
| `OrdersEndpoint.OrderStore.Render` | app/api/v1/endpoints/orders.py:64-65 | one response per queried row, in query order, with decoded items |
| `OrdersEndpoint.OrderStore.StoredRowsWellFormed` | app/api/v1/endpoints/orders.py:65 | every stored row's items column decodes |
| `OrdersEndpoint.OrderStore.GetActiveOrders` | app/api/v1/endpoints/orders.py:55-67 | returns exactly the orders whose status is not "cancelled", each once, by ascending id, with items decoded |
| `OrdersEndpoint.OrderStore.GetAllOrders` | app/api/v1/endpoints/orders.py:148-160 | returns every order once, by ascending id, with items decoded |
| `OrdersEndpoint.CancelIsTerminal` | app/api/v1/endpoints/orders.py:126-134 | cancelling the same order twice: the second call is refused with 400 and the table holds the order cancelled |
| `OrderRepo.OrderRepository.GetById` | app/repositories/order_repository.py:15-16 | the row with that id, or None exactly when no row has it |
| `OrderRepo.OrderRepository.GetActive` | app/repositories/order_repository.py:12-13 | exactly the stored rows whose status is "active", each once, by ascending id |
| `OrderRepo.OrderRepository.Create` | app/repositories/order_repository.py:5-10 | adds one row with a fresh id, the caller's fields and date `now`; `get_by_id` then finds it |
| `OrderRepo.OrderRepository.UpdateStatus` | app/repositories/order_repository.py:18-24 | on an existing id only that row's status changes, to the given string, and the new row is returned; on an absent id None and no change |
| `OrderRepo.OrderRepository.Delete` | app/repositories/order_repository.py:26-31 | on an existing id exactly that row is removed and returned; on an absent id None and no change; afterwards the id is absent |
| `ReservationRepo.ReservationRepository.GetById` | app/repositories/reservation_repository.py:15-16 | the reservation with that id, or None exactly when none has it |
| `ReservationRepo.ReservationRepository.GetActive` | app/repositories/reservation_repository.py:12-13 | exactly the reservations whose status is "active", each once, by ascending id |
| `ReservationRepo.ReservationRepository.Create` | app/repositories/reservation_repository.py:5-10 | adds one reservation with a fresh id and the caller's fields; `get_by_id` then finds it |
| `ReservationRepo.ReservationRepository.UpdateStatus` | app/repositories/reservation_repository.py:18-24 | on an existing id only that reservation's status changes and it is returned; on an absent id None and no change |
| `ReservationRepo.ReservationRepository.Delete` | app/repositories/reservation_repository.py:26-31 | on an existing id exactly that reservation is removed and returned; on an absent id None and no change |
| `PaymentRepo.StartOfDay` | app/repositories/payment_repository.py:14 | the start of the current day is a midnight at or before `now`, less than a day earlier |
| `PaymentRepo.PaymentRepository.GetById` | app/repositories/payment_repository.py:19-20 | the payment with that id, or None exactly when none has it |
| `PaymentRepo.PaymentRepository.GetToday` | app/repositories/payment_repository.py:13-17 | exactly the payments dated at or after the start of the current day, each once, by ascending id |
| `PaymentRepo.PaymentRepository.Create` | app/repositories/payment_repository.py:6-11 | adds one payment with a fresh id, the caller's fields and date `now`; `get_by_id` then finds it |
| `PaymentRepo.PaymentRepository.Delete` | app/repositories/payment_repository.py:22-27 | on an existing id exactly that payment is removed and returned; on an absent id None and no change |
| `Tables.Select` | app/api/v1/endpoints/orders.py:61 | a query returns only stored ids in range whose row passes the filter, strictly ascending |
| `Tables.SelectComplete` | app/api/v1/endpoints/orders.py:61 | every stored id in range whose row passes the filter is returned |
| `Tables.SelectMembership` | app/api/v1/endpoints/orders.py:154 | an id is selected if and only if it is stored, in range and passes the filter |
| `Tables.QueryExact` | app/repositories/order_repository.py:13 | a query returns exactly the stored records passing the filter, each under its own key, by ascending key |

## Left out

- HTTP routing and glue are not modelled: app/main.py, app/api/v1/router.py, and app/api/orders.py, reservations.py and payments.py, which only map None to 404. `OrdersEndpoint.StatusCode` carries the 404/400 codes of the modelled errors.
- The catch-all `except Exception` branches are not modelled. They answer 500 for unexpected storage or decoding failures; only `create_order`, `delete_order` and `cancel_order` also log with `print`.
- The error detail strings of the `HTTPException`s and of the catalog's `ValueError` are not modelled. Errors carry their reason and, for an unknown product, its name.
- SQLAlchemy sessions, `commit`/`refresh`, transactions and concurrent requests are not modelled. Every operation is one atomic step on an in-memory table.
- Ids come from a counter, so an id is never handed out twice. SQLite's rowid would pick one more than the current largest id and could reuse the id of a deleted last row. In both cases the new id is not in the table.
- The list queries have no ORDER BY in the source. The model returns rows in ascending id order.
- Float arithmetic is not modelled. Prices and totals are integer cents, so float rounding is absent.
- JSON text (`json.dumps`/`json.loads` to and from characters) is not modelled. The items column holds a JSON value. `None` stands for both a NULL and an empty column, the two falsy cases of `get_items`.
- `OrderModel.LoadItems` reads an array of objects with a string "product" and an integer "quantity". Pydantic's lax coercion of other shapes (for example "3" as a quantity) is not modelled.
- `OrderModel.Order.SetItems` returns the updated record instead of assigning the field of a shared object: rows are values, so ORM object aliasing (a returned object being the stored one) is not modelled.
- The query loops that assign `order.items = json.loads(...)` on loaded objects are modelled as building response values. The source commits nothing after those assignments, so the table does not change.
- The date default `datetime.utcnow` (order) and `datetime.now` (older order layout, payment) and the clock read in `get_today` are not modelled. The time is passed in as `now`, and "today" is `now` rounded down to a multiple of 86400 seconds in local time.
- Both order layouts, app/domain/models/order.py and app/domain/models.py, name the table `orders`. The model keeps them as two separate tables, `OrdersEndpoint.OrderStore` and `OrderRepo.OrderRepository`.
- app/domain/models/reservation.py (date, time, people count) is not the layout the reservation repository imports, so it is not part of this model.
- Looking up a price cannot change the catalog: `Catalog.ProductPrices` is a constant, so no lemma is needed.
- app/api/v1/endpoints/reservations.py is not part of this model.
