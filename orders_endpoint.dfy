/**
 * The order endpoints of app/api/v1/endpoints/orders.py over an in-memory
 * `orders` table: placing an order (catalog check, total, item encoding),
 * cancelling, hard deletion, the two listings and the product listing.
 * Raised `HTTPException`s are `Err` results carrying the reason.
 */
module OrdersEndpoint {
  import opened Wrappers
  import opened Catalog
  import opened OrderModel
  import Tables

  /** The request body `OrderCreate`. */
  datatype OrderCreate = OrderCreate(client: string, items: seq<OrderItem>)

  /** The response schema `Order`: the row with its items decoded into a list. */
  datatype OrderOut = OrderOut(id: int, date: int, client: string, items: seq<OrderItem>, total: int, status: string)

  /** One entry of the `/products` listing. */
  datatype ProductInfo = ProductInfo(name: string, price: nat)

  /** The `HTTPException`s the endpoints raise. */
  datatype ApiError =
    | NotFound(orderId: int)
    | InvalidProduct(cause: CatalogError)
    | AlreadyCancelled

  /** The HTTP status code each error is reported with. */
  function StatusCode(e: ApiError): (code: int)
    ensures code == 404 <==> e.NotFound?
    ensures code == 400 <==> (e.InvalidProduct? || e.AlreadyCancelled?)
  {
    match e
    case NotFound(_) => 404
    case InvalidProduct(_) => 400
    case AlreadyCancelled => 400
  }

  const Cancelled: string := "cancelled"

  /** The filter of `get_active_orders`: status other than "cancelled". */
  function IsActive(o: Order): bool {
    o.status != Cancelled
  }

  /** The filter of `get_all_orders`: no condition. */
  function AnyOrder(o: Order): bool {
    true
  }

  /** Every item names a catalog product. */
  ghost predicate AllKnown(items: seq<OrderItem>) {
    forall i | 0 <= i < |items| :: items[i].product in Keys()
  }

  /** Item `i` is the first one whose product is not in the catalog. */
  ghost predicate FirstUnknown(items: seq<OrderItem>, i: int) {
    0 <= i < |items| && items[i].product !in Keys() && AllKnown(items[..i])
  }

  /** `price * item.quantity` for one item, in cents. */
  function LineTotal(x: OrderItem): (t: int)
    requires x.product in Keys()
    ensures exists i | 0 <= i < |ProductPrices| :: ProductPrices[i].name == x.product && t == ProductPrices[i].price * x.quantity
  {
    GetProductPrice(x.product).value * x.quantity
  }

  /** The sum of `price * quantity` over the items. */
  function Subtotal(items: seq<OrderItem>): (t: int)
    requires AllKnown(items)
    ensures (forall i | 0 <= i < |items| :: items[i].quantity >= 0) ==> t >= 0
    ensures items == [] ==> t == 0
  {
    if items == [] then 0 else LineTotal(items[0]) + Subtotal(items[1..])
  }

  /** Totals add up over concatenation; in particular the loop's running total, which
      adds one line at a time at the end, is the sum over the items seen so far. */
  lemma {:induction false} SubtotalAppend(a: seq<OrderItem>, b: seq<OrderItem>)
    requires AllKnown(a) && AllKnown(b) && AllKnown(a + b)
    ensures Subtotal(a + b) == Subtotal(a) + Subtotal(b)
  {
    if a != [] {
      assert (a + b)[1..] == a[1..] + b;
      SubtotalAppend(a[1..], b);
    } else {
      assert a + b == b;
    }
  }

  /** A one-line order costs the product's price times the quantity. */
  lemma OneLine(x: OrderItem)
    requires x.product in Keys()
    ensures AllKnown([x]) && Subtotal([x]) == GetProductPrice(x.product).value * x.quantity
  {
    assert [x][1..] == [];
  }

  /** Three pizzas cost 32.97. */
  lemma ThreePizzas()
    ensures AllKnown([OrderItem("Pizza", 3)]) && Subtotal([OrderItem("Pizza", 3)]) == 3297
  {
    assert GetProductPrice("Pizza") == Ok(1099);
  }

  /** A row whose items column reads back as an item list (every row the endpoints write). */
  ghost predicate WellFormed(o: Order) {
    o.items.Some? && LoadItems(o.items.value).Some?
  }

  /** A stored row: its key is an id already handed out, equal to the row's own id, and its items decode. */
  ghost predicate StoredRow(k: int, o: Order, nextId: int) {
    1 <= k < nextId && o.id == k && WellFormed(o)
  }

  /** The response for a row: `order.items = json.loads(order.items)`. */
  function Respond(o: Order): (out: OrderOut)
    requires WellFormed(o)
    ensures out.id == o.id && out.status == o.status
    ensures out.date == o.date && out.client == o.client && out.total == o.total
    ensures Some(out.items) == LoadItems(o.items.value)
  {
    OrderOut(o.id, o.date, o.client, LoadItems(o.items.value).value, o.total, o.status)
  }

  /** `get_available_products`: one name and price per catalog entry, in catalog order. */
  function AvailableProducts(): (r: seq<ProductInfo>)
    ensures |r| == |ProductPrices|
    ensures forall i | 0 <= i < |r| :: r[i].name == ProductPrices[i].name && GetProductPrice(r[i].name) == Ok(r[i].price)
    ensures forall n :: n in Keys() <==> exists i :: 0 <= i < |r| && r[i].name == n
  {
    var r := seq(|ProductPrices|, i requires 0 <= i < |ProductPrices| => ProductInfo(ProductPrices[i].name, ProductPrices[i].price));
    assert forall i | 0 <= i < |r| :: GetProductPrice(r[i].name) == Ok(r[i].price) by {
      forall i | 0 <= i < |r| ensures GetProductPrice(r[i].name) == Ok(r[i].price) {
        PriceOfEveryEntry(i);
      }
    }
    r
  }

  /** The `orders` table: rows keyed by id, and the next id the store hands out. */
  class OrderStore {
    var rows: map<int, Order>
    var nextId: int

    ghost predicate Valid()
      reads this
    {
      && nextId >= 1
      && forall k | k in rows :: StoredRow(k, rows[k], nextId)
    }

    constructor ()
      ensures Valid() && rows == map[] && nextId == 1
    {
      rows := map[];
      nextId := 1;
    }

    /** The ids `SELECT ... WHERE status != 'cancelled'` returns. */
    function ActiveIds(): seq<int>
      reads this
    {
      Tables.Select(rows, IsActive, 1, nextId)
    }

    /** The ids `SELECT ...` without a filter returns. */
    function AllIds(): seq<int>
      reads this
    {
      Tables.Select(rows, AnyOrder, 1, nextId)
    }

    /** `create_order`: check every item against the catalog, add up the total, store the
        row as "pending" with its items encoded, and answer with the items decoded again.
        An unknown product is reported for the first such item, before anything is stored. */
    method CreateOrder(order: OrderCreate, now: int) returns (r: Result<OrderOut, ApiError>)
      requires Valid()
      modifies this
      ensures Valid()
      ensures r.Ok? <==> AllKnown(order.items)
      ensures r.Err? ==> rows == old(rows) && nextId == old(nextId)
      ensures r.Err? ==> exists i :: FirstUnknown(order.items, i) && r.error == InvalidProduct(UnknownProduct(order.items[i].product))
      ensures r.Ok? ==>
        && old(nextId) !in old(rows)
        && r.value == OrderOut(old(nextId), now, order.client, order.items, Subtotal(order.items), "pending")
        && rows == old(rows)[old(nextId) := NewOrder(old(nextId), now, order.client, Some(DumpItems(order.items)), Subtotal(order.items))]
        && nextId == old(nextId) + 1
    {
      var items := order.items;
      var total := 0;
      for i := 0 to |items|
        invariant AllKnown(items[..i])
        invariant total == Subtotal(items[..i])
        invariant rows == old(rows) && nextId == old(nextId)
      {
        var price := GetProductPrice(items[i].product);
        if price.Err? {
          assert FirstUnknown(items, i);
          return Err(InvalidProduct(price.error));
        }
        assert items[..i + 1] == items[..i] + [items[i]];
        OneLine(items[i]);
        SubtotalAppend(items[..i], [items[i]]);
        total := total + price.value * items[i].quantity;
      }
      assert items[..|items|] == items;
      var id := nextId;
      RoundTrip(items);
      var row := NewOrder(id, now, order.client, Some(DumpItems(items)), total);
      assert WellFormed(row) && Respond(row).items == items;
      rows := rows[id := row];
      nextId := nextId + 1;
      assert StoredRow(id, row, nextId);
      r := Ok(Respond(row));
    }

    /** `cancel_order`: 404 for a missing id, 400 for an order already cancelled,
        otherwise the status becomes "cancelled" and nothing else changes. */
    method CancelOrder(id: int) returns (r: Result<OrderOut, ApiError>)
      requires Valid()
      modifies this
      ensures Valid() && nextId == old(nextId)
      ensures id !in old(rows) ==> r == Err(NotFound(id)) && rows == old(rows)
      ensures id in old(rows) && old(rows)[id].status == Cancelled ==> r == Err(AlreadyCancelled) && rows == old(rows)
      ensures id in old(rows) && old(rows)[id].status != Cancelled ==>
        && rows == old(rows)[id := old(rows)[id].(status := Cancelled)]
        && r == Ok(Respond(rows[id]))
    {
      if id !in rows {
        return Err(NotFound(id));
      }
      var row := rows[id];
      if row.status == Cancelled {
        return Err(AlreadyCancelled);
      }
      row := row.(status := Cancelled);
      rows := rows[id := row];
      r := Ok(Respond(row));
    }

    /** `delete_order`: 404 for a missing id, otherwise the row is removed and its last
        state is returned. */
    method DeleteOrder(id: int) returns (r: Result<OrderOut, ApiError>)
      requires Valid()
      modifies this
      ensures Valid() && nextId == old(nextId)
      ensures id !in old(rows) ==> r == Err(NotFound(id)) && rows == old(rows)
      ensures id in old(rows) ==> rows == old(rows) - {id} && r == Ok(Respond(old(rows)[id]))
      ensures id !in rows
    {
      if id !in rows {
        return Err(NotFound(id));
      }
      var row := rows[id];
      rows := rows - {id};
      r := Ok(Respond(row));
    }

    /** Every row a query returns can be decoded into a response. */
    lemma StoredRowsWellFormed(ids: seq<int>)
      requires Valid()
      requires forall j | 0 <= j < |ids| :: ids[j] in rows
      ensures forall j | 0 <= j < |ids| :: WellFormed(rows[ids[j]])
    {
      forall j | 0 <= j < |ids| ensures WellFormed(rows[ids[j]]) {
        var k := ids[j];
        assert StoredRow(k, rows[k], nextId);
      }
    }

    /** Decode every row of a query result, in result order (the loop rewriting `order.items`). */
    method Render(ids: seq<int>) returns (out: seq<OrderOut>)
      requires forall j | 0 <= j < |ids| :: ids[j] in rows && WellFormed(rows[ids[j]])
      ensures |out| == |ids|
      ensures forall j | 0 <= j < |ids| :: out[j] == Respond(rows[ids[j]])
    {
      out := [];
      for j := 0 to |ids|
        invariant |out| == j
        invariant forall i | 0 <= i < j :: out[i] == Respond(rows[ids[i]])
      {
        out := out + [Respond(rows[ids[j]])];
      }
    }

    /** `get_active_orders`: exactly the orders whose status is not "cancelled", by ascending id. */
    method GetActiveOrders() returns (out: seq<OrderOut>)
      requires Valid()
      ensures forall j | 0 <= j < |out| :: out[j].id in rows && IsActive(rows[out[j].id]) && out[j] == Respond(rows[out[j].id])
      ensures forall j, j' | 0 <= j < j' < |out| :: out[j].id < out[j'].id
      ensures forall k | k in rows && IsActive(rows[k]) :: exists j :: 0 <= j < |out| && out[j].id == k
    {
      var ids := ActiveIds();
      StoredRowsWellFormed(ids);
      out := Render(ids);
      forall k | k in rows && IsActive(rows[k]) ensures exists j :: 0 <= j < |out| && out[j].id == k {
        Tables.SelectComplete(rows, IsActive, 1, nextId, k);
        var j :| 0 <= j < |ids| && ids[j] == k;
        assert out[j].id == k;
      }
    }

    /** `get_all_orders`: every order, whatever its status, by ascending id. */
    method GetAllOrders() returns (out: seq<OrderOut>)
      requires Valid()
      ensures forall j | 0 <= j < |out| :: out[j].id in rows && out[j] == Respond(rows[out[j].id])
      ensures forall j, j' | 0 <= j < j' < |out| :: out[j].id < out[j'].id
      ensures forall k | k in rows :: exists j :: 0 <= j < |out| && out[j].id == k
    {
      var ids := AllIds();
      StoredRowsWellFormed(ids);
      out := Render(ids);
      forall k | k in rows ensures exists j :: 0 <= j < |out| && out[j].id == k {
        Tables.SelectComplete(rows, AnyOrder, 1, nextId, k);
        var j :| 0 <= j < |ids| && ids[j] == k;
        assert out[j].id == k;
      }
    }
  }

  /** Cancellation is terminal: a second cancel of the same order is refused with 400
      and leaves the table as the first one left it. */
  method CancelIsTerminal(store: OrderStore, id: int) returns (first: Result<OrderOut, ApiError>, second: Result<OrderOut, ApiError>)
    requires store.Valid() && id in store.rows
    modifies store
    ensures store.Valid()
    ensures old(store.rows)[id].status != Cancelled ==> first.Ok? && first.value.status == Cancelled
    ensures second == Err(AlreadyCancelled) && StatusCode(second.error) == 400
    ensures store.rows == old(store.rows)[id := old(store.rows)[id].(status := Cancelled)]
  {
    first := store.CancelOrder(id);
    second := store.CancelOrder(id);
  }
}
