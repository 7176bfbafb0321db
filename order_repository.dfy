/**
 * `OrderRepository` of app/repositories/order_repository.py over the
 * `orders` table of the older record layout (app/domain/models.py): the
 * products are one caller-supplied string and the total is stored as the
 * caller gives it.
 */
module OrderRepo {
  import opened Wrappers
  import Tables

  /** A row: `date` in seconds, `total` in cents. */
  datatype Order = Order(id: int, date: int, client: string, products: string, total: int, status: string)

  /** The request body `OrderCreate`; a caller that gives no status gets "pending". */
  datatype OrderCreate = OrderCreate(client: string, products: string, total: int, status: string)

  const Active: string := "active"

  function IsActive(o: Order): bool {
    o.status == Active
  }

  function OrderId(o: Order): int {
    o.id
  }

  class OrderRepository {
    var rows: map<int, Order>
    var nextId: int

    ghost predicate Valid()
      reads this
    {
      && nextId >= 1
      && (forall k | k in rows :: 1 <= k < nextId)
      && Tables.Keyed(rows, OrderId)
    }

    constructor ()
      ensures Valid() && rows == map[] && nextId == 1
    {
      rows := map[];
      nextId := 1;
    }

    /** `get_by_id`: the row with that id, or `None`. */
    function GetById(id: int): (r: Option<Order>)
      reads this
      requires Valid()
      ensures r.None? <==> id !in rows
      ensures r.Some? ==> r.value == rows[id] && r.value.id == id
    {
      if id in rows then Some(rows[id]) else None
    }

    /** `get_active`: exactly the rows whose status is "active", by ascending id. */
    function GetActive(): (r: seq<Order>)
      reads this
      requires Valid()
      ensures forall i | 0 <= i < |r| :: r[i].id in rows && rows[r[i].id] == r[i] && r[i].status == Active
      ensures forall i, j | 0 <= i < j < |r| :: r[i].id < r[j].id
      ensures forall k | k in rows && rows[k].status == Active :: exists i :: 0 <= i < |r| && r[i].id == k
    {
      Tables.QueryExact(rows, OrderId, IsActive, 1, nextId);
      Tables.Query(rows, IsActive, 1, nextId)
    }

    /** `create`: store a new row with a fresh id and the current time as its date. */
    method Create(order: OrderCreate, now: int) returns (o: Order)
      requires Valid()
      modifies this
      ensures Valid()
      ensures o == Order(old(nextId), now, order.client, order.products, order.total, order.status)
      ensures o.id !in old(rows) && rows == old(rows)[o.id := o] && nextId == old(nextId) + 1
      ensures GetById(o.id) == Some(o)
    {
      o := Order(nextId, now, order.client, order.products, order.total, order.status);
      rows := rows[nextId := o];
      nextId := nextId + 1;
    }

    /** `update_status`: set the status of an existing row and return it; `None` and no
        change for an absent id. Any string is accepted as a status. */
    method UpdateStatus(id: int, status: string) returns (r: Option<Order>)
      requires Valid()
      modifies this
      ensures Valid() && nextId == old(nextId)
      ensures id !in old(rows) ==> r == None && rows == old(rows)
      ensures id in old(rows) ==> r == Some(old(rows)[id].(status := status)) && rows == old(rows)[id := r.value]
    {
      if id !in rows {
        return None;
      }
      var o := rows[id].(status := status);
      rows := rows[id := o];
      r := Some(o);
    }

    /** `delete`: remove an existing row and return it; `None` and no change for an absent id. */
    method Delete(id: int) returns (r: Option<Order>)
      requires Valid()
      modifies this
      ensures Valid() && nextId == old(nextId)
      ensures id !in old(rows) ==> r == None && rows == old(rows)
      ensures id in old(rows) ==> r == Some(old(rows)[id]) && rows == old(rows) - {id}
      ensures GetById(id) == None
    {
      if id !in rows {
        return None;
      }
      r := Some(rows[id]);
      rows := rows - {id};
    }
  }
}
