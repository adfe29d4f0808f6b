/**
 * The persistence gateway behind the tables controller, kept abstract:
 * two maps keyed by id and the single-row updates the controller issues
 * (`read`, `readReservation`, `occupy`, `free`, `updateReservation`, `create`).
 */
module TablesService {
  import opened Wrappers
  import opened Entities

  /** The store's contents as a value. */
  datatype Db = Db(tables: map<int, Table>, reservations: map<int, Reservation>, nextTableId: int) {

    /** Every row sits under its own id, and the next table id is above every id in use. */
    predicate Valid() {
      && (forall k :: k in tables ==> tables[k].tableId == k && k < nextTableId)
      && (forall k :: k in reservations ==> reservations[k].reservationId == k)
    }

    /** `occupy(table_id, reservation_id)`: the table is occupied by that reservation. */
    function Occupy(tableId: int, reservationId: int): (d: Db)
      ensures d.reservations == reservations && d.nextTableId == nextTableId
      ensures tableId in tables ==>
        d.tables == tables[tableId := tables[tableId].(status := Occupied, reservationId := Some(reservationId))]
      ensures tableId !in tables ==> d.tables == tables
      ensures Valid() ==> d.Valid()
    {
      if tableId in tables
      then this.(tables := tables[tableId := tables[tableId].(status := Occupied, reservationId := Some(reservationId))])
      else this
    }

    /** `free(table_id)`: the table is free and refers to no reservation. */
    function Free(tableId: int): (d: Db)
      ensures d.reservations == reservations && d.nextTableId == nextTableId
      ensures tableId in tables ==>
        d.tables == tables[tableId := tables[tableId].(status := TableStatus.Free, reservationId := None)]
      ensures tableId !in tables ==> d.tables == tables
      ensures Valid() ==> d.Valid()
    {
      if tableId in tables
      then this.(tables := tables[tableId := tables[tableId].(status := TableStatus.Free, reservationId := None)])
      else this
    }

    /** `updateReservation(id, status)`; an absent id (`null`) or an unknown one matches no row. */
    function UpdateReservation(id: Option<int>, status: ReservationStatus): (d: Db)
      ensures d.tables == tables && d.nextTableId == nextTableId
      ensures id.Some? && id.value in reservations ==>
        d.reservations == reservations[id.value := reservations[id.value].(status := status)]
      ensures id.None? || id.value !in reservations ==> d.reservations == reservations
      ensures Valid() ==> d.Valid()
    {
      if id.Some? && id.value in reservations
      then this.(reservations := reservations[id.value := reservations[id.value].(status := status)])
      else this
    }

    /** `create(row)`: the row is inserted under a freshly assigned id. */
    function Insert(row: Table): (d: Db)
      ensures d.reservations == reservations && d.nextTableId == nextTableId + 1
      ensures d.tables == tables[nextTableId := row.(tableId := nextTableId)]
      ensures Valid() ==> d.Valid()
      ensures nextTableId !in tables ==> forall k :: k in tables ==> k in d.tables && d.tables[k] == tables[k]
    {
      this.(tables := tables[nextTableId := row.(tableId := nextTableId)], nextTableId := nextTableId + 1)
    }
  }

  /** The store as the controller sees it: mutable, updated one row at a time. */
  class Store {
    var tables: map<int, Table>
    var reservations: map<int, Reservation>
    var nextTableId: int

    function Value(): Db
      reads this
    {
      Db(tables, reservations, nextTableId)
    }

    constructor (initial: Db)
      ensures Value() == initial
    {
      tables := initial.tables;
      reservations := initial.reservations;
      nextTableId := initial.nextTableId;
    }

    method Occupy(tableId: int, reservationId: int)
      modifies this
      ensures Value() == old(Value()).Occupy(tableId, reservationId)
    {
      if tableId in tables {
        tables := tables[tableId := tables[tableId].(status := Occupied, reservationId := Some(reservationId))];
      }
    }

    method Free(tableId: int)
      modifies this
      ensures Value() == old(Value()).Free(tableId)
    {
      if tableId in tables {
        tables := tables[tableId := tables[tableId].(status := TableStatus.Free, reservationId := None)];
      }
    }

    method UpdateReservation(id: Option<int>, status: ReservationStatus)
      modifies this
      ensures Value() == old(Value()).UpdateReservation(id, status)
    {
      if id.Some? && id.value in reservations {
        reservations := reservations[id.value := reservations[id.value].(status := status)];
      }
    }

    method Insert(row: Table) returns (created: Table)
      modifies this
      ensures Value() == old(Value()).Insert(row)
      ensures created == row.(tableId := old(nextTableId))
    {
      created := row.(tableId := nextTableId);
      tables := tables[nextTableId := created];
      nextTableId := nextTableId + 1;
    }
  }
}
