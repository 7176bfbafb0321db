/**
 * `ReservationRepository` of app/repositories/reservation_repository.py over
 * the `reservations` table of app/domain/models.py.
 */
module ReservationRepo {
  import opened Wrappers
  import Tables

  /** A row: the reserved date and time in seconds, the client and the table. */
  datatype Reservation = Reservation(id: int, date: int, client: string, tableNumber: int, status: string)

  /** The request body `ReservationCreate`; a caller that gives no status gets "active". */
  datatype ReservationCreate = ReservationCreate(client: string, date: int, tableNumber: int, status: string)

  const Active: string := "active"

  function IsActive(r: Reservation): bool {
    r.status == Active
  }

  function ReservationId(r: Reservation): int {
    r.id
  }

  class ReservationRepository {
    var rows: map<int, Reservation>
    var nextId: int

    ghost predicate Valid()
      reads this
    {
      && nextId >= 1
      && (forall k | k in rows :: 1 <= k < nextId)
      && Tables.Keyed(rows, ReservationId)
    }

    constructor ()
      ensures Valid() && rows == map[] && nextId == 1
    {
      rows := map[];
      nextId := 1;
    }

    /** `get_by_id`: the reservation with that id, or `None`. */
    function GetById(id: int): (r: Option<Reservation>)
      reads this
      requires Valid()
      ensures r.None? <==> id !in rows
      ensures r.Some? ==> r.value == rows[id] && r.value.id == id
    {
      if id in rows then Some(rows[id]) else None
    }

    /** `get_active`: exactly the reservations whose status is "active", by ascending id. */
    function GetActive(): (r: seq<Reservation>)
      reads this
      requires Valid()
      ensures forall i | 0 <= i < |r| :: r[i].id in rows && rows[r[i].id] == r[i] && r[i].status == Active
      ensures forall i, j | 0 <= i < j < |r| :: r[i].id < r[j].id
      ensures forall k | k in rows && rows[k].status == Active :: exists i :: 0 <= i < |r| && r[i].id == k
    {
      Tables.QueryExact(rows, ReservationId, IsActive, 1, nextId);
      Tables.Query(rows, IsActive, 1, nextId)
    }

    /** `create`: store a new reservation under a fresh id, with the fields the caller gave. */
    method Create(reservation: ReservationCreate) returns (r: Reservation)
      requires Valid()
      modifies this
      ensures Valid()
      ensures r == Reservation(old(nextId), reservation.date, reservation.client, reservation.tableNumber, reservation.status)
      ensures r.id !in old(rows) && rows == old(rows)[r.id := r] && nextId == old(nextId) + 1
      ensures GetById(r.id) == Some(r)
    {
      r := Reservation(nextId, reservation.date, reservation.client, reservation.tableNumber, reservation.status);
      rows := rows[nextId := r];
      nextId := nextId + 1;
    }

    /** `update_status`: set the status of an existing reservation and return it; `None`
        and no change for an absent id. Any string is accepted as a status. */
    method UpdateStatus(id: int, status: string) returns (r: Option<Reservation>)
      requires Valid()
      modifies this
      ensures Valid() && nextId == old(nextId)
      ensures id !in old(rows) ==> r == None && rows == old(rows)
      ensures id in old(rows) ==> r == Some(old(rows)[id].(status := status)) && rows == old(rows)[id := r.value]
    {
      if id !in rows {
        return None;
      }
      var x := rows[id].(status := status);
      rows := rows[id := x];
      r := Some(x);
    }

    /** `delete`: remove an existing reservation and return it; `None` and no change for an absent id. */
    method Delete(id: int) returns (r: Option<Reservation>)
      requires Valid()
      modifies this
      ensures Valid() && nextId == old(nextId)
      ensures id !in old(rows) ==> r == None && rows == old(rows)
      ensures id in old(rows) ==> r == Some(old(rows)[id]) && rows == old(rows) - {id}
      ensures GetById(id) == None
    {
      if id !in rows {
        return None;
      }
      r := Some(rows[id]);
      rows := rows - {id};
    }
  }
}
