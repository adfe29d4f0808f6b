/**
 * The tables controller: the guards that run before the `create`, `update`
 * (seat) and `destroy` (finish) handlers, each request as its pipeline of
 * guards followed by the handler's writes, and the handlers themselves as
 * methods over the mutable store.
 */
module TablesController {
  import opened Wrappers
  import opened Js
  import opened Entities
  import opened TablesService

  /** An error passed to `next`: an HTTP status and a message. */
  datatype HttpError = HttpError(status: int, message: string)

  /** The fields of `req.body.data` that the table routes read. */
  datatype TableBody = TableBody(tableName: JsValue, capacity: JsValue, reservationId: JsValue)

  datatype Payload = TableRow(row: Table) | StatusReport(status: string)

  /** What a request ends with. `StoreFault` stands for the store refusing a value
      it cannot coerce to an id, which surfaces as a server error. */
  datatype Response = Success(code: int, payload: Payload) | Failure(error: HttpError) | StoreFault

  /** A response together with the store contents after the request. */
  datatype Step = Step(response: Response, db: Db)

  const DataMissing := HttpError(400, "Body must include a data object")
  const NameEmpty := HttpError(400, "'table_name' field cannot be empty")
  const NameTooShort := HttpError(400, "'table_name' field must be at least two characters")
  const CapacityEmpty := HttpError(400, "'capacity' field cannot be empty")
  const CapacityNotNumber := HttpError(400, "'capacity' field must be a number")
  const CapacityTooSmall := HttpError(400, "'capacity' field must be at least one")
  const ReservationIdMissing := HttpError(400, "'reservation_id' field must be included in the body")
  const TableOccupied := HttpError(400, "The table you selected is curently occupied")
  const ReservationSeated := HttpError(400, "The reservation you selected is already seated")
  const TableNotOccupied := HttpError(400, "This table is not occupied")

  function TableNotFound(tableId: int): HttpError {
    HttpError(404, "table_id " + IntToString(tableId) + " does not exist")
  }

  function ReservationNotFound(reservationId: JsValue): HttpError {
    HttpError(404, "reservation_id " + Display(reservationId) + " does not exist")
  }

  function NotEnoughCapacity(people: int): HttpError {
    HttpError(400, "The table you selected does not have enough capacity to seat " + IntToString(people) + " people")
  }

  //////////////////////////////////////////////////////////////////////////
  // Guards
  //////////////////////////////////////////////////////////////////////////

  /** validateData: `req.body.data` must be present (absent or falsy data is `None`). */
  function ValidateData(data: Option<TableBody>): (r: Option<HttpError>)
    ensures r.None? <==> data.Some?
    ensures r.Some? ==> r.value.status == 400
  {
    if data.None? then Some(DataMissing) else None
  }

  /** `v.length < 2`: only a string has a length, counted in UTF-16 code units; for any other
      value the comparison is false. */
  predicate ShorterThanTwo(v: JsValue) {
    v.Str? && Utf16Length(v.s) < 2
  }

  /** `typeof v === "number"`. */
  predicate IsNumberType(v: JsValue) {
    v.Num? || v.NaN?
  }

  /** A table body the server accepts, stated positively: a present name that, when it
      is a string, has at least two UTF-16 code units, and a capacity that is a number of at least one. */
  predicate AcceptableTable(b: TableBody) {
    && Truthy(b.tableName)
    && (b.tableName.Str? ==> Utf16Length(b.tableName.s) >= 2)
    && b.capacity.Num?
    && b.capacity.n >= 1
  }

  /** validateBody: the first failing check, in source order, or nothing. */
  function ValidateBody(b: TableBody): (r: Option<HttpError>)
    ensures r.None? <==> AcceptableTable(b)
    ensures r.Some? ==> r.value.status == 400
    ensures r == Some(CapacityTooSmall) ==> b.capacity.Num? && b.capacity.n < 0
  {
    if !Truthy(b.tableName) then Some(NameEmpty)
    else if ShorterThanTwo(b.tableName) then Some(NameTooShort)
    else if !Truthy(b.capacity) then Some(CapacityEmpty)
    else if !IsNumberType(b.capacity) then Some(CapacityNotNumber)
    else if b.capacity.n < 1 then Some(CapacityTooSmall)
    else None
  }

  /** Only the first failing check is reported, in the order name empty, name too short,
      capacity empty, capacity not a number, capacity below one. */
  lemma ValidateBodyReportsFirstFailure(b: TableBody)
    ensures ValidateBody(b) == Some(NameEmpty) <==> !Truthy(b.tableName)
    ensures ValidateBody(b) == Some(NameTooShort) <==>
      Truthy(b.tableName) && ShorterThanTwo(b.tableName)
    ensures ValidateBody(b) == Some(CapacityEmpty) <==>
      Truthy(b.tableName) && !ShorterThanTwo(b.tableName) && !Truthy(b.capacity)
    ensures ValidateBody(b) == Some(CapacityNotNumber) <==>
      Truthy(b.tableName) && !ShorterThanTwo(b.tableName) && Truthy(b.capacity) && !IsNumberType(b.capacity)
    ensures ValidateBody(b) == Some(CapacityTooSmall) <==>
      Truthy(b.tableName) && !ShorterThanTwo(b.tableName) && b.capacity.Num? && b.capacity.n < 0
  {
  }

  /** A name of one character outside the Basic Multilingual Plane, such as an emoji, has
      length 2 and passes the length check; a name of one other character does not. */
  lemma AstralNameLongEnough(c: char, capacity: int)
    requires capacity >= 1
    ensures IsAstral(c) <==> ValidateBody(TableBody(Str([c]), Num(capacity), Undefined)).None?
    ensures ValidateBody(TableBody(Str("\U{1F600}"), Num(capacity), Undefined)).None?
  {
    assert [c][..0] == [];
    assert ['\U{1F600}'][..0] == [];
  }

  /** A capacity of 0 is falsy, so it is reported as empty and never as "at least one". */
  lemma ZeroCapacityReportedEmpty(b: TableBody)
    requires Truthy(b.tableName) && !ShorterThanTwo(b.tableName)
    requires b.capacity == Num(0)
    ensures ValidateBody(b) == Some(CapacityEmpty)
  {
  }

  /** validateSeat: seating is refused for an occupied table, an already seated reservation,
      or a party larger than the table, in that order. */
  function ValidateSeat(t: Table, r: Reservation): (e: Option<HttpError>)
    ensures e.None? <==> t.status != Occupied && r.status != Seated && t.capacity >= r.people
  {
    if t.status == Occupied then Some(TableOccupied)
    else if r.status == Seated then Some(ReservationSeated)
    else if t.capacity < r.people then Some(NotEnoughCapacity(r.people))
    else None
  }

  lemma ValidateSeatReportsFirstViolation(t: Table, r: Reservation)
    ensures t.status == Occupied ==> ValidateSeat(t, r) == Some(TableOccupied)
    ensures t.status != Occupied && r.status == Seated ==> ValidateSeat(t, r) == Some(ReservationSeated)
    ensures t.status != Occupied && r.status != Seated && t.capacity < r.people ==>
      ValidateSeat(t, r) == Some(NotEnoughCapacity(r.people))
  {
  }

  /** A party exactly the table's size is seated; one more person is refused for capacity. */
  lemma SeatCapacityBoundary(t: Table, r: Reservation)
    requires t.status != Occupied && r.status != Seated
    ensures ValidateSeat(t, r.(people := t.capacity)) == None
    ensures ValidateSeat(t, r.(people := t.capacity + 1)) == Some(NotEnoughCapacity(t.capacity + 1))
  {
  }

  /** validateSeatedTable: only an occupied table can be finished. */
  function ValidateSeatedTable(t: Table): (e: Option<HttpError>)
    ensures e.None? <==> t.status == Occupied
    ensures e.Some? ==> e.value == TableNotOccupied
  {
    if t.status != Occupied then Some(TableNotOccupied) else None
  }

  /** validateTableId: the table under the route's id, or 404. */
  function LookupTable(tables: map<int, Table>, tableId: int): (r: Result<Table, HttpError>)
    ensures r.Ok? <==> tableId in tables
    ensures r.Ok? ==> r.value == tables[tableId]
    ensures r.Err? ==> r.error == TableNotFound(tableId)
  {
    if tableId in tables then Ok(tables[tableId]) else Err(TableNotFound(tableId))
  }

  /** The body's reservation id is present and `Number(id)` is a stored reservation. */
  predicate NamesReservation(reservations: map<int, Reservation>, reservationId: JsValue) {
    Truthy(reservationId) && ToNumber(reservationId).Num? && ToNumber(reservationId).n in reservations
  }

  /** validateReservationId: a falsy id is a 400; otherwise `Number(id)` is looked up, 404 if absent. */
  function LookupReservation(reservations: map<int, Reservation>, reservationId: JsValue): (r: Result<Reservation, HttpError>)
    ensures r.Ok? <==> NamesReservation(reservations, reservationId)
    ensures r.Ok? ==> r.value == reservations[ToNumber(reservationId).n]
    ensures r.Err? ==> r.error == if Truthy(reservationId) then ReservationNotFound(reservationId) else ReservationIdMissing
  {
    if !Truthy(reservationId) then Err(ReservationIdMissing)
    else match ToNumber(reservationId)
      case Num(k) => if k in reservations then Ok(reservations[k]) else Err(ReservationNotFound(reservationId))
      case _ => Err(ReservationNotFound(reservationId))
  }

  //////////////////////////////////////////////////////////////////////////
  // Requests as pipelines
  //////////////////////////////////////////////////////////////////////////

  /** The seat route's guards in order: validateData, validateTableId, validateReservationId, validateSeat. */
  function SeatGuard(db: Db, tableId: int, data: Option<TableBody>): (r: Result<(Table, Reservation), HttpError>)
    ensures r.Ok? ==>
      && data.Some? && tableId in db.tables && r.value.0 == db.tables[tableId]
      && NamesReservation(db.reservations, data.value.reservationId)
      && r.value.1 == db.reservations[ToNumber(data.value.reservationId).n]
      && ValidateSeat(r.value.0, r.value.1).None?
    ensures r.Err? ==> r.error.status == 400 || r.error.status == 404
  {
    if data.None? then Err(DataMissing)
    else match LookupTable(db.tables, tableId)
      case Err(e) => Err(e)
      case Ok(t) =>
        match LookupReservation(db.reservations, data.value.reservationId)
        case Err(e) => Err(e)
        case Ok(r) =>
          match ValidateSeat(t, r)
          case Some(e) => Err(e)
          case None => Ok((t, r))
  }

  /** PUT /tables/:table_id/seat. */
  function UpdateStep(db: Db, tableId: int, data: Option<TableBody>): (s: Step)
    ensures s.response.Failure? ==> s.db == db
    ensures s.response.Success? <==> SeatGuard(db, tableId, data).Ok?
    ensures s.response.Success? ==> s.response == Success(200, StatusReport("seated"))
  {
    match SeatGuard(db, tableId, data)
    case Err(e) => Step(Failure(e), db)
    case Ok((t, r)) =>
      Step(Success(200, StatusReport("seated")),
           db.Occupy(t.tableId, r.reservationId).UpdateReservation(Some(r.reservationId), Seated))
  }

  /** The order in which the seat route's failures win over one another. */
  lemma SeatPipelineOrder(db: Db, tableId: int, data: Option<TableBody>)
    ensures data.None? ==> SeatGuard(db, tableId, data) == Err(DataMissing)
    ensures data.Some? && tableId !in db.tables ==> SeatGuard(db, tableId, data) == Err(TableNotFound(tableId))
    ensures data.Some? && tableId in db.tables && !Truthy(data.value.reservationId) ==>
      SeatGuard(db, tableId, data) == Err(ReservationIdMissing)
    ensures (data.Some? && tableId in db.tables && Truthy(data.value.reservationId)
             && !NamesReservation(db.reservations, data.value.reservationId)) ==>
      SeatGuard(db, tableId, data) == Err(ReservationNotFound(data.value.reservationId))
    ensures data.Some? && tableId in db.tables && NamesReservation(db.reservations, data.value.reservationId) ==>
      var r := db.reservations[ToNumber(data.value.reservationId).n];
      SeatGuard(db, tableId, data) ==
        if ValidateSeat(db.tables[tableId], r).Some? then Err(ValidateSeat(db.tables[tableId], r).value)
        else Ok((db.tables[tableId], r))
  {
  }

  /** Seating succeeds exactly when the table and reservation exist and the three seat rules hold. */
  lemma SeatSucceedsIff(db: Db, tableId: int, b: TableBody)
    ensures UpdateStep(db, tableId, Some(b)).response.Success? <==>
      && tableId in db.tables
      && Truthy(b.reservationId)
      && ToNumber(b.reservationId).Num?
      && ToNumber(b.reservationId).n in db.reservations
      && db.tables[tableId].status != Occupied
      && db.reservations[ToNumber(b.reservationId).n].status != Seated
      && db.tables[tableId].capacity >= db.reservations[ToNumber(b.reservationId).n].people
  {
  }

  /** After a successful seat the table is occupied by that reservation, the reservation is
      seated, and no other row changes. */
  lemma SeatEffect(db: Db, tableId: int, data: Option<TableBody>)
    requires db.Valid()
    requires UpdateStep(db, tableId, data).response.Success?
    ensures data.Some? && ToNumber(data.value.reservationId).Num?
    ensures var k := ToNumber(data.value.reservationId).n;
      var after := UpdateStep(db, tableId, data).db;
      && tableId in db.tables && k in db.reservations
      && after.tables == db.tables[tableId := db.tables[tableId].(status := Occupied, reservationId := Some(k))]
      && after.reservations == db.reservations[k := db.reservations[k].(status := Seated)]
      && after.nextTableId == db.nextTableId
  {
    var t := db.tables[tableId];
    var k := ToNumber(data.value.reservationId).n;
    assert t.tableId == tableId;
    assert db.reservations[k].reservationId == k;
  }

  /** A reservation that has already finished passes the seat rules again: the rules only
      refuse a reservation that is currently seated. */
  lemma FinishedReservationCanBeSeatedAgain(db: Db, tableId: int, b: TableBody)
    requires db.Valid()
    requires tableId in db.tables && db.tables[tableId].status == TableStatus.Free
    requires Truthy(b.reservationId) && ToNumber(b.reservationId).Num?
    requires ToNumber(b.reservationId).n in db.reservations
    requires db.reservations[ToNumber(b.reservationId).n].status == Finished
    requires db.tables[tableId].capacity >= db.reservations[ToNumber(b.reservationId).n].people
    ensures UpdateStep(db, tableId, Some(b)).response.Success?
    ensures UpdateStep(db, tableId, Some(b)).db.reservations[ToNumber(b.reservationId).n].status == Seated
  {
    SeatEffect(db, tableId, Some(b));
  }

  /** The finish route's guards in order: validateTableId, validateSeatedTable. */
  function FinishGuard(db: Db, tableId: int): (r: Result<Table, HttpError>)
    ensures r.Ok? <==> tableId in db.tables && db.tables[tableId].status == Occupied
    ensures r.Ok? ==> r.value == db.tables[tableId]
    ensures r.Err? ==> r.error == if tableId in db.tables then TableNotOccupied else TableNotFound(tableId)
  {
    match LookupTable(db.tables, tableId)
    case Err(e) => Err(e)
    case Ok(t) =>
      match ValidateSeatedTable(t)
      case Some(e) => Err(e)
      case None => Ok(t)
  }

  /** DELETE /tables/:table_id/seat. */
  function DestroyStep(db: Db, tableId: int): (s: Step)
    ensures s.response.Failure? ==> s.db == db
    ensures s.response.Success? <==> tableId in db.tables && db.tables[tableId].status == Occupied
    ensures tableId in db.tables && db.tables[tableId].status != Occupied ==>
      s.response == Failure(TableNotOccupied)
  {
    match FinishGuard(db, tableId)
    case Err(e) => Step(Failure(e), db)
    case Ok(t) =>
      Step(Success(200, StatusReport("finished")),
           db.UpdateReservation(t.reservationId, Finished).Free(t.tableId))
  }

  /** After a successful finish the table is free without a reservation, the reservation it
      referred to (when it names a stored one) is finished, and nothing else changes. */
  lemma FinishEffect(db: Db, tableId: int)
    requires db.Valid()
    requires DestroyStep(db, tableId).response.Success?
    ensures var t := db.tables[tableId];
      var after := DestroyStep(db, tableId).db;
      && after.tables == db.tables[tableId := t.(status := TableStatus.Free, reservationId := None)]
      && after.reservations ==
           (if t.reservationId.Some? && t.reservationId.value in db.reservations
            then db.reservations[t.reservationId.value := db.reservations[t.reservationId.value].(status := Finished)]
            else db.reservations)
      && after.nextTableId == db.nextTableId
  {
    assert db.tables[tableId].tableId == tableId;
  }

  /** Finishing the same table twice: the second request fails as "not occupied" and changes nothing. */
  lemma FinishTwice(db: Db, tableId: int)
    requires db.Valid()
    requires DestroyStep(db, tableId).response.Success?
    ensures var first := DestroyStep(db, tableId);
      DestroyStep(first.db, tableId) == Step(Failure(TableNotOccupied), first.db)
  {
    FinishEffect(db, tableId);
  }

  /** The row that `create` inserts, before the store assigns its id. */
  function NewRow(b: TableBody, status: TableStatus, reservationId: Option<int>): Table
    requires b.capacity.Num?
  {
    Table(0, Display(b.tableName), b.capacity.n, status, reservationId)
  }

  /** POST /tables: validateData, validateBody, then `create`, which seats the given
      reservation (if any) before inserting the table. */
  function CreateStep(db: Db, data: Option<TableBody>): (s: Step)
    ensures !s.response.Success? ==> s.db == db
    ensures s.response.Failure? <==> data.None? || ValidateBody(data.value).Some?
  {
    if data.None? then Step(Failure(DataMissing), db)
    else
      var b := data.value;
      match ValidateBody(b)
      case Some(e) => Step(Failure(e), db)
      case None =>
        if Truthy(b.reservationId) then
          match ToNumber(b.reservationId)
          case Num(k) =>
            var seated := db.UpdateReservation(Some(k), Seated);
            var row := NewRow(b, Occupied, Some(k));
            Step(Success(201, TableRow(row.(tableId := seated.nextTableId))), seated.Insert(row))
          case _ => Step(StoreFault, db)
        else if b.reservationId.Undefined? || b.reservationId.Null? then
          var row := NewRow(b, TableStatus.Free, None);
          Step(Success(201, TableRow(row.(tableId := db.nextTableId))), db.Insert(row))
        else
          // A falsy id that is present (0, false, "") still goes to the store with the row.
          match ToNumber(b.reservationId)
          case Num(k) =>
            var row := NewRow(b, TableStatus.Free, Some(k));
            Step(Success(201, TableRow(row.(tableId := db.nextTableId))), db.Insert(row))
          case _ => Step(StoreFault, db)
  }

  /** A `reservation_id` that is in the body but falsy: `create` marks the table free and
      still hands the id to the store. */
  predicate FalsyIdPresent(b: TableBody) {
    !Truthy(b.reservationId) && !b.reservationId.Undefined? && !b.reservationId.Null?
  }

  /** A created table is occupied exactly when the body's reservation id is truthy, and that
      reservation is then seated; otherwise the table is free and no reservation changes. A
      falsy id that is present is stored anyway: the free table refers to reservation 0.
      The new row gets an unused id. */
  lemma CreateEffect(db: Db, b: TableBody)
    requires db.Valid()
    requires CreateStep(db, Some(b)).response.Success?
    ensures var s := CreateStep(db, Some(b));
      var row := s.response.payload.row;
      && s.response.code == 201
      && row.tableId == db.nextTableId && row.tableId !in db.tables
      && s.db.tables == db.tables[row.tableId := row]
      && row.capacity == b.capacity.n
      && (row.status == Occupied <==> Truthy(b.reservationId))
      && (Truthy(b.reservationId) ==> row.reservationId == Some(ToNumber(b.reservationId).n))
      && (!Truthy(b.reservationId) ==> s.db.reservations == db.reservations)
      && (b.reservationId.Undefined? || b.reservationId.Null? ==> row.reservationId == None)
      && (FalsyIdPresent(b) ==> row.reservationId == Some(0))
      && (Truthy(b.reservationId) ==> s.db.reservations == db.UpdateReservation(row.reservationId, Seated).reservations)
  {
  }

  /** A reservation id that is present but not a number cannot reach the store: nothing is written. */
  lemma CreateFaultIff(db: Db, b: TableBody)
    ensures CreateStep(db, Some(b)).response.StoreFault? <==>
      && ValidateBody(b).None?
      && !b.reservationId.Undefined? && !b.reservationId.Null?
      && ToNumber(b.reservationId).NaN?
  {
  }

  //////////////////////////////////////////////////////////////////////////
  // The cross-entity invariant
  //////////////////////////////////////////////////////////////////////////

  /** The store is well formed and a table refers to a reservation exactly when it is occupied. */
  predicate Consistent(db: Db) {
    && db.Valid()
    && forall k :: k in db.tables ==> (db.tables[k].status == Occupied <==> db.tables[k].reservationId.Some?)
  }

  /** Create keeps the invariant except when it stores a free table with a present falsy
      reservation id, which then refers to a reservation while free. */
  lemma CreatePreservesConsistent(db: Db, data: Option<TableBody>)
    requires Consistent(db)
    ensures Consistent(CreateStep(db, data).db) <==>
      !(CreateStep(db, data).response.Success? && FalsyIdPresent(data.value))
  {
    var s := CreateStep(db, data);
    if s.response.Success? && FalsyIdPresent(data.value) {
      var k := db.nextTableId;
      assert k in s.db.tables && s.db.tables[k].status == TableStatus.Free;
      assert s.db.tables[k].reservationId.Some?;
    }
  }

  /** The body `{table_name: "ab", capacity: 4, reservation_id: 0}` creates a free table that
      refers to reservation 0. */
  lemma ZeroIdCreatesFreeTableWithReference(db: Db)
    ensures var s := CreateStep(db, Some(TableBody(Str("ab"), Num(4), Num(0))));
      && s.response.Success?
      && s.response.payload.row.status == TableStatus.Free
      && s.response.payload.row.reservationId == Some(0)
      && !Consistent(s.db)
  {
    var s := CreateStep(db, Some(TableBody(Str("ab"), Num(4), Num(0))));
    assert ['a', 'b'][..1] == ['a'] && ['a'][..0] == [];
    assert db.nextTableId in s.db.tables;
  }

  lemma UpdatePreservesConsistent(db: Db, tableId: int, data: Option<TableBody>)
    requires Consistent(db)
    ensures Consistent(UpdateStep(db, tableId, data).db)
  {
    if UpdateStep(db, tableId, data).response.Success? {
      SeatEffect(db, tableId, data);
    }
  }

  lemma DestroyPreservesConsistent(db: Db, tableId: int)
    requires Consistent(db)
    ensures Consistent(DestroyStep(db, tableId).db)
  {
    if DestroyStep(db, tableId).response.Success? {
      FinishEffect(db, tableId);
    }
  }

  //////////////////////////////////////////////////////////////////////////
  // The handlers over the mutable store
  //////////////////////////////////////////////////////////////////////////

  method Create(store: Store, data: Option<TableBody>) returns (resp: Response)
    modifies store
    ensures Step(resp, store.Value()) == CreateStep(old(store.Value()), data)
  {
    var e := ValidateData(data);
    if e.Some? {
      return Failure(e.value);
    }
    var body := data.value;
    e := ValidateBody(body);
    if e.Some? {
      return Failure(e.value);
    }
    var status: TableStatus;
    var reservationId: Option<int>;
    if Truthy(body.reservationId) {
      var id := ToNumber(body.reservationId);
      if !id.Num? {
        return StoreFault;
      }
      status, reservationId := Occupied, Some(id.n);
      store.UpdateReservation(reservationId, Seated);
    } else if body.reservationId.Undefined? || body.reservationId.Null? {
      status, reservationId := TableStatus.Free, None;
    } else {
      var id := ToNumber(body.reservationId);
      if !id.Num? {
        return StoreFault;
      }
      status, reservationId := TableStatus.Free, Some(id.n);
    }
    var created := store.Insert(NewRow(body, status, reservationId));
    resp := Success(201, TableRow(created));
  }

  method Update(store: Store, tableId: int, data: Option<TableBody>) returns (resp: Response)
    modifies store
    ensures Step(resp, store.Value()) == UpdateStep(old(store.Value()), tableId, data)
  {
    var e := ValidateData(data);
    if e.Some? {
      return Failure(e.value);
    }
    var table := LookupTable(store.tables, tableId);
    if table.Err? {
      return Failure(table.error);
    }
    var reservation := LookupReservation(store.reservations, data.value.reservationId);
    if reservation.Err? {
      return Failure(reservation.error);
    }
    e := ValidateSeat(table.value, reservation.value);
    if e.Some? {
      return Failure(e.value);
    }
    store.Occupy(table.value.tableId, reservation.value.reservationId);
    store.UpdateReservation(Some(reservation.value.reservationId), Seated);
    resp := Success(200, StatusReport("seated"));
  }

  method Destroy(store: Store, tableId: int) returns (resp: Response)
    modifies store
    ensures Step(resp, store.Value()) == DestroyStep(old(store.Value()), tableId)
  {
    var table := LookupTable(store.tables, tableId);
    if table.Err? {
      return Failure(table.error);
    }
    var e := ValidateSeatedTable(table.value);
    if e.Some? {
      return Failure(e.value);
    }
    store.UpdateReservation(table.value.reservationId, Finished);
    store.Free(table.value.tableId);
    resp := Success(200, StatusReport("finished"));
  }
}
