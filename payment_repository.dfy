/**
 * `PaymentRepository` of app/repositories/payment_repository.py over the
 * `payments` table of app/domain/models.py. The clock is a parameter:
 * `now` is the current local time in seconds.
 */
module PaymentRepo {
  import opened Wrappers
  import Tables

  /** A row: `amount` in cents, `date` in seconds. */
  datatype Payment = Payment(id: int, orderId: int, amount: int, date: int, status: string)

  /** The request body `PaymentCreate`; a caller that gives no status gets "completed". */
  datatype PaymentCreate = PaymentCreate(orderId: int, amount: int, status: string)

  const SecondsPerDay: int := 86400

  /** `datetime.now().date()` as a timestamp: midnight at the start of the day holding `now`. */
  function StartOfDay(now: int): (day: int)
    ensures day <= now < day + SecondsPerDay
    ensures day % SecondsPerDay == 0
  {
    now - now % SecondsPerDay
  }

  function PaymentId(p: Payment): int {
    p.id
  }

  class PaymentRepository {
    var rows: map<int, Payment>
    var nextId: int

    ghost predicate Valid()
      reads this
    {
      && nextId >= 1
      && (forall k | k in rows :: 1 <= k < nextId)
      && Tables.Keyed(rows, PaymentId)
    }

    constructor ()
      ensures Valid() && rows == map[] && nextId == 1
    {
      rows := map[];
      nextId := 1;
    }

    /** `get_by_id`: the payment with that id, or `None`. */
    function GetById(id: int): (r: Option<Payment>)
      reads this
      requires Valid()
      ensures r.None? <==> id !in rows
      ensures r.Some? ==> r.value == rows[id] && r.value.id == id
    {
      if id in rows then Some(rows[id]) else None
    }

    /** `get_today`: exactly the payments dated at or after the start of the current day
        (later dates included), by ascending id. */
    function GetToday(now: int): (r: seq<Payment>)
      reads this
      requires Valid()
      ensures forall i | 0 <= i < |r| :: r[i].id in rows && rows[r[i].id] == r[i] && r[i].date >= StartOfDay(now)
      ensures forall i, j | 0 <= i < j < |r| :: r[i].id < r[j].id
      ensures forall k | k in rows && rows[k].date >= StartOfDay(now) :: exists i :: 0 <= i < |r| && r[i].id == k
    {
      var today := StartOfDay(now);
      var fromToday := (p: Payment) => p.date >= today;
      Tables.QueryExact(rows, PaymentId, fromToday, 1, nextId);
      Tables.Query(rows, fromToday, 1, nextId)
    }

    /** `create`: store a new payment under a fresh id, dated `now`. */
    method Create(payment: PaymentCreate, now: int) returns (p: Payment)
      requires Valid()
      modifies this
      ensures Valid()
      ensures p == Payment(old(nextId), payment.orderId, payment.amount, now, payment.status)
      ensures p.id !in old(rows) && rows == old(rows)[p.id := p] && nextId == old(nextId) + 1
      ensures GetById(p.id) == Some(p)
    {
      p := Payment(nextId, payment.orderId, payment.amount, now, payment.status);
      rows := rows[nextId := p];
      nextId := nextId + 1;
    }

    /** `delete`: remove an existing payment and return it; `None` and no change for an absent id. */
    method Delete(id: int) returns (r: Option<Payment>)
      requires Valid()
      modifies this
      ensures Valid() && nextId == old(nextId)
      ensures id !in old(rows) ==> r == None && rows == old(rows)
      ensures id in old(rows) ==> r == Some(old(rows)[id]) && rows == old(rows) - {id}
      ensures GetById(id) == None
    {
      if id !in rows {
        return None;
      }
      r := Some(rows[id]);
      rows := rows - {id};
    }
  }
}
