/** The two rows the application stores: restaurant tables and reservations. */
module Entities {
  import opened Wrappers
  import opened Js

  datatype TableStatus = Free | Occupied

  datatype ReservationStatus = Booked | Seated | Finished | Cancelled

  /** A table row. `reservationId` refers to the reservation seated at it, if any. */
  datatype Table = Table(
    tableId: int,
    tableName: string,
    capacity: int,
    status: TableStatus,
    reservationId: Option<int>)

  /** A calendar date as the browser's local clock reads it: month 1..12, day 1..31. */
  datatype CalendarDate = CalendarDate(year: int, month: int, day: int)

  /** A reservation row; `people` is the party size. */
  datatype Reservation = Reservation(
    reservationId: int,
    firstName: string,
    lastName: string,
    mobileNumber: string,
    reservationDate: CalendarDate,
    reservationTime: string,
    people: int,
    status: ReservationStatus)

  /** `tables.find(t => t.table_id === key)` where key is already a number: the first table
      with that id, or nothing. */
  function FindTableById(tables: seq<Table>, key: JsValue): (r: Option<Table>)
    ensures r.Some? ==> r.value in tables && key == Num(r.value.tableId)
    ensures r.None? <==> forall i :: 0 <= i < |tables| ==> key != Num(tables[i].tableId)
    ensures r.Some? ==>
      exists i :: 0 <= i < |tables| && tables[i] == r.value && forall j :: 0 <= j < i ==> key != Num(tables[j].tableId)
  {
    Find(tables, (t: Table) => key == Num(t.tableId))
  }

  /** `reservations.find(r => r.reservation_id === key)` where key is already a number: the
      first reservation with that id, or nothing. */
  function FindReservationById(reservations: seq<Reservation>, key: JsValue): (r: Option<Reservation>)
    ensures r.Some? ==> r.value in reservations && key == Num(r.value.reservationId)
    ensures r.None? <==> forall i :: 0 <= i < |reservations| ==> key != Num(reservations[i].reservationId)
    ensures r.Some? ==>
      exists i :: 0 <= i < |reservations| && reservations[i] == r.value
                  && forall j :: 0 <= j < i ==> key != Num(reservations[j].reservationId)
  {
    Find(reservations, (x: Reservation) => key == Num(x.reservationId))
  }
}
