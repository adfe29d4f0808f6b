/**
 * The seat page's client-side pre-check: look the selected table and the
 * route's reservation up in the lists the page holds, then apply the
 * occupancy and capacity rules, collecting every message.
 */
module SeatReservation {
  import opened Wrappers
  import opened Js
  import opened Entities
  import opened TablesService
  import TablesController

  const TableMissing := "The table you selected does not exist."
  const ReservationMissing := "This reservation does not exist."
  const TableOccupied := "The table you selected is currently occupied"

  function CannotSeat(people: int): string {
    "The table you selected cannot seat " + IntToString(people) + " people."
  }

  /** The two rules, checked independently of each other. */
  function RuleErrors(t: Table, r: Reservation): seq<string> {
    (if t.status == Occupied then [TableOccupied] else [])
    + (if t.capacity < r.people then [CannotSeat(r.people)] else [])
  }

  /** The messages validateSeat collects. `selected` is the select box's value (the number 0
      before any choice, then a string); `routeId` is the route's reservation id. */
  function SeatErrors(tables: seq<Table>, reservations: seq<Reservation>, selected: JsValue, routeId: string): seq<string> {
    var foundTable := FindTableById(tables, ToNumber(selected));
    var foundReservation := FindReservationById(reservations, ToNumber(Str(routeId)));
    if foundTable.None? then [TableMissing]
    else if foundReservation.None? then [ReservationMissing]
    else RuleErrors(foundTable.value, foundReservation.value)
  }

  /** validateSeat: builds the message list with pushes and passes when it stays empty. */
  method ValidateSeat(tables: seq<Table>, reservations: seq<Reservation>, selected: JsValue, routeId: string)
    returns (ok: bool, errors: seq<string>)
    ensures errors == SeatErrors(tables, reservations, selected, routeId)
    ensures ok <==> errors == []
  {
    errors := [];
    var foundTable := FindTableById(tables, ToNumber(selected));
    var foundReservation := FindReservationById(reservations, ToNumber(Str(routeId)));
    if foundTable.None? {
      errors := errors + [TableMissing];
      assert errors == [TableMissing];
    } else if foundReservation.None? {
      errors := errors + [ReservationMissing];
      assert errors == [ReservationMissing];
    } else {
      var table, reservation := foundTable.value, foundReservation.value;
      if table.status == Occupied {
        errors := errors + [TableOccupied];
      }
      assert errors == if table.status == Occupied then [TableOccupied] else [];
      if table.capacity < reservation.people {
        errors := errors + [CannotSeat(reservation.people)];
      }
      assert errors == RuleErrors(table, reservation);
    }
    ok := |errors| == 0;
  }

  /** An unknown table gives exactly one message, whatever the reservations are. */
  lemma UnknownTableOnlyError(tables: seq<Table>, reservations: seq<Reservation>, selected: JsValue, routeId: string)
    requires forall i :: 0 <= i < |tables| ==> ToNumber(selected) != Num(tables[i].tableId)
    ensures SeatErrors(tables, reservations, selected, routeId) == [TableMissing]
  {
  }

  /** A known table with an unknown reservation gives exactly one message. */
  lemma UnknownReservationOnlyError(tables: seq<Table>, reservations: seq<Reservation>, selected: JsValue, routeId: string)
    requires exists i :: 0 <= i < |tables| && ToNumber(selected) == Num(tables[i].tableId)
    requires forall i :: 0 <= i < |reservations| ==> ToNumber(Str(routeId)) != Num(reservations[i].reservationId)
    ensures SeatErrors(tables, reservations, selected, routeId) == [ReservationMissing]
  {
  }

  /** When both are found, the occupied and capacity messages are reported independently,
      so an occupied, too-small table yields both. */
  lemma RuleErrorsIndependent(t: Table, r: Reservation)
    ensures TableOccupied in RuleErrors(t, r) <==> t.status == Occupied
    ensures CannotSeat(r.people) in RuleErrors(t, r) <==> t.capacity < r.people
    ensures t.status == Occupied && t.capacity < r.people ==>
      RuleErrors(t, r) == [TableOccupied, CannotSeat(r.people)]
    ensures RuleErrors(t, r) == [] <==> t.status != Occupied && t.capacity >= r.people
  {
    assert TableOccupied != CannotSeat(r.people) by {
      assert TableOccupied[23] != CannotSeat(r.people)[23];
    }
  }

  /** The pre-check's rules agree with the server's seat rules except that the server
      also refuses a reservation already seated. */
  lemma RulesAgreeWithServer(t: Table, r: Reservation)
    ensures TablesController.ValidateSeat(t, r).None? <==> RuleErrors(t, r) == [] && r.status != Seated
  {
    RuleErrorsIndependent(t, r);
  }

  /** The same reservation with another status (a helper for stating status independence). */
  function WithStatus(r: Reservation, status: ReservationStatus): Reservation {
    r.(status := status)
  }

  function AllWithStatus(rs: seq<Reservation>, status: ReservationStatus): (r: seq<Reservation>)
    ensures |r| == |rs|
    ensures forall i :: 0 <= i < |rs| ==> r[i] == WithStatus(rs[i], status)
  {
    seq(|rs|, i requires 0 <= i < |rs| => WithStatus(rs[i], status))
  }

  lemma {:induction false} FindIgnoresStatus(rs: seq<Reservation>, key: JsValue, status: ReservationStatus)
    ensures var found := FindReservationById(AllWithStatus(rs, status), key);
      var original := FindReservationById(rs, key);
      found.Some? == original.Some? && (found.Some? ==> found.value == WithStatus(original.value, status))
  {
    if rs != [] {
      assert AllWithStatus(rs, status)[1..] == AllWithStatus(rs[1..], status);
      FindIgnoresStatus(rs[1..], key, status);
    }
  }

  /** The pre-check never looks at a reservation's status. */
  lemma SeatErrorsIgnoreStatus(tables: seq<Table>, reservations: seq<Reservation>, selected: JsValue, routeId: string, status: ReservationStatus)
    ensures SeatErrors(tables, AllWithStatus(reservations, status), selected, routeId)
         == SeatErrors(tables, reservations, selected, routeId)
  {
    FindIgnoresStatus(reservations, ToNumber(Str(routeId)), status);
  }

  /** The page's lists are rows of the store. */
  predicate ListedFrom(db: Db, tables: seq<Table>, reservations: seq<Reservation>) {
    && (forall i :: 0 <= i < |tables| ==> tables[i].tableId in db.tables && db.tables[tables[i].tableId] == tables[i])
    && (forall i :: 0 <= i < |reservations| ==>
          reservations[i].reservationId in db.reservations && db.reservations[reservations[i].reservationId] == reservations[i])
  }

  /** When the pre-check passes on lists read from the store, the seat request the page sends
      for the chosen table and the route's reservation succeeds on that store exactly when the
      reservation is not already seated. */
  lemma PrecheckPassMeansServerSeats(db: Db, tables: seq<Table>, reservations: seq<Reservation>, selected: JsValue, routeId: string)
    requires ListedFrom(db, tables, reservations)
    requires routeId != ""
    requires SeatErrors(tables, reservations, selected, routeId) == []
    ensures FindTableById(tables, ToNumber(selected)).Some?
    ensures FindReservationById(reservations, ToNumber(Str(routeId))).Some?
    ensures var t := FindTableById(tables, ToNumber(selected)).value;
      var r := FindReservationById(reservations, ToNumber(Str(routeId))).value;
      var body := TablesController.TableBody(Undefined, Undefined, Str(routeId));
      TablesController.UpdateStep(db, t.tableId, Some(body)).response.Success? <==> r.status != Seated
  {
    var t := FindTableById(tables, ToNumber(selected)).value;
    var r := FindReservationById(reservations, ToNumber(Str(routeId))).value;
    var body := TablesController.TableBody(Undefined, Undefined, Str(routeId));
    assert db.tables[t.tableId] == t;
    assert db.reservations[r.reservationId] == r;
    RulesAgreeWithServer(t, r);
    TablesController.SeatSucceedsIff(db, t.tableId, body);
  }
}
