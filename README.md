# Restaurant tables and reservations: the seating rules, verified

This project models the decision logic of a small restaurant reservation
application: the server's table routes (create a table, seat a reservation at
a table, finish a table) with the guards each request runs before it writes,
and the three browser-side forms that check the same things before calling
the server (the reservation form, the seat page, the new-table form).

The server keeps two kinds of rows, tables (`free` or `occupied`, optionally
referring to the reservation seated there) and reservations (`booked`,
`seated`, `finished`, `cancelled`). The store is held abstractly as two maps
keyed by id (`TablesService.Db`, and the mutable `TablesService.Store` the
handlers update one row at a time). Each request is modelled in three ways
that the proofs tie together: its guards in route order (`SeatGuard`,
`FinishGuard`, `ValidateData`/`ValidateBody`), the whole request as a function
from store to response and new store (`CreateStep`, `UpdateStep`,
`DestroyStep`), and the handler as a method that issues the source's writes in
the source's order (`TablesController.Create`, `Update`, `Destroy`).

JavaScript's loose values are modelled explicitly (`Js.JsValue`): truthiness
(`!v`), `Number(v)`, how a value is written into a message, and
`Array.prototype.find`. This is where several of the source's edge cases come
from. A capacity of `0` is falsy, so it is reported as empty. Clearing a
number input stores `Number("") == 0`, which the browser-side blank checks do
not catch. An unparsable date compares false everywhere, so it passes every
date check.

Modules: `Wrappers` (Option, Result), `Js`, `Entities` (rows and lookups by
id), `TablesService` (the store), `TablesController` (server), and
`ReservationCreate`, `SeatReservation`, `TableCreate` (browser forms), and
`ReservationEdit` (the reservation form's prefill on the edit page, with its
date string and `ParseDate`, a reader of that string written only to state the
round trip). `ReservationEdit` holds code from the same source file as
`ReservationCreate` (its `useEffect` prefill and `fillFields`). It is a
module of its own so that the date-string proofs are not slowed by the
rest of the form's definitions.

Where the design description and the code disagree, the model follows the code:

- The seat rule only refuses a reservation whose status is `seated`. A
  `finished` or `cancelled` reservation can be seated again, so reservation
  statuses do not only move forward (`FinishedReservationCanBeSeatedAgain`).
- The reservation form's JavaScript never checks that the party size is a
  positive integer. The input's `min="1" step="1"` attributes do, but they are
  part of the rendering this model leaves out. The JavaScript does not reject an
  unparsable date either.
- The new-table form never checks the capacity's value. It only checks that the
  capacity is not the empty string.
- `create` does not check that the reservation named in the body exists. It
  does not check that reservation's status either. It seats it regardless, so a
  reservation already seated at one table can also be the reference of a new
  table, while the design has a seated reservation belong to exactly one table.
- `create` marks a table free whenever the body's `reservation_id` is falsy,
  but it hands the whole body, id included, to the store. A body with
  `reservation_id: 0` (or `false` or `""`, which the store reads as 0)
  creates a free table that refers to reservation 0. So "a table refers to a
  reservation exactly when it is occupied" holds after every seat and finish,
  but not after such a create (`CreatePreservesConsistent`,
  `ZeroIdCreatesFreeTableWithReference`).

## Model

| member | source | states |
|---|---|---|
| `Js.ToNumber` | front-end/src/reservations/SeatReservation.js:63-68 | `Number(v)` always yields a number or NaN and leaves numbers unchanged |
| `Js.Truthy` | back-end/src/tables/tables.controller.js:10 | `!v` is true exactly for `undefined`, `null`, `false`, `0`, `NaN` and `""` |
| `Js.Utf16Length` | front-end/src/tables/TableCreate.js:52 | `.length` lies between the number of characters and twice it, and equals it exactly when no character is outside the Basic Multilingual Plane |
| `Js.IntToString` | back-end/src/tables/tables.controller.js:97 | `String(n)` is a non-empty run of digits, preceded by '-' exactly for a negative number |
| `Js.SliceLast` | front-end/src/reservations/ReservationCreate.js:52-54 | `s.slice(-k)` is the last k characters of s, or all of s when it is shorter |
| `Js.IntToStringRoundTrip` | back-end/src/tables/tables.controller.js:62 | an integer written into a string by `IntToString` (`String(n)`) reads back through `Number` (`StringToNumber` on strings) as the same integer |
| `Js.FindIndex` | front-end/src/reservations/SeatReservation.js:63-68 | the index found is the first whose element satisfies the predicate; none is found exactly when no element does |
| `Js.Find` | front-end/src/reservations/SeatReservation.js:63-68 | `find` returns the first element of the list that satisfies the predicate, and nothing exactly when no element does |
| `Entities.FindTableById` | front-end/src/reservations/SeatReservation.js:63-65 | the table found is the first in the list whose id equals the selected value converted with `Number`; nothing is found exactly when no id matches |
| `Entities.FindReservationById` | front-end/src/reservations/SeatReservation.js:66-68 | the reservation found is the first in the list whose id is the route id's numeric value; nothing is found exactly when no id matches |
| `TablesService.Db.Occupy` | back-end/src/tables/tables.controller.js:165-168 | exactly the named table row becomes occupied by the reservation; nothing else changes; a well-formed store stays well formed |
| `TablesService.Db.Free` | back-end/src/tables/tables.controller.js:182 | exactly the named table row becomes free with no reservation; nothing else changes; a well-formed store stays well formed |
| `TablesService.Db.UpdateReservation` | back-end/src/tables/tables.controller.js:169-172 | exactly the named reservation row takes the new status; an absent or unknown id changes nothing; a well-formed store stays well formed |
| `TablesService.Db.Insert` | back-end/src/tables/tables.controller.js:156 | the row is added under the next free table id, which then advances; no existing row is overwritten, reservations are unchanged, and a well-formed store stays well formed |
| `TablesService.Store.Occupy` | back-end/src/tables/tables.controller.js:165-168 | the store's new contents are the old contents with that single-row update |
| `TablesService.Store.Free` | back-end/src/tables/tables.controller.js:182 | the store's new contents are the old contents with that single-row update |
| `TablesService.Store.UpdateReservation` | back-end/src/tables/tables.controller.js:169-172 | the store's new contents are the old contents with that single-row update |
| `TablesService.Store.Insert` | back-end/src/tables/tables.controller.js:156 | the row is stored under the old next id and returned with that id |
| `TablesController.ValidateData` | back-end/src/tables/tables.controller.js:9-15 | there is an error exactly when the data object is missing, and it is a 400 |
| `TablesController.ValidateBody` | back-end/src/tables/tables.controller.js:20-48 | passes exactly for a present name that has at least two UTF-16 code units when it is a string, together with a numeric capacity of at least one; every failure is a 400; "at least one" is only reported for a negative capacity |
| `TablesController.AstralNameLongEnough` | back-end/src/tables/tables.controller.js:25-30 | a one-character name passes the length check exactly when the character is outside the Basic Multilingual Plane (an emoji counts as two), so one emoji is accepted |
| `TablesController.ValidateBodyReportsFirstFailure` | back-end/src/tables/tables.controller.js:20-48 | each message is reported exactly when its check is the first to fail, in the order name empty, name short, capacity empty, capacity not a number, capacity below one |
| `TablesController.ZeroCapacityReportedEmpty` | back-end/src/tables/tables.controller.js:32-45 | with a valid name, a capacity of 0 is reported as "cannot be empty" |
| `TablesController.ValidateSeat` | back-end/src/tables/tables.controller.js:79-102 | passes exactly when the table is not occupied, the reservation is not seated and the capacity covers the party |
| `TablesController.ValidateSeatReportsFirstViolation` | back-end/src/tables/tables.controller.js:79-102 | with several violations only the first is reported, in the order occupied, seated, capacity |
| `TablesController.SeatCapacityBoundary` | back-end/src/tables/tables.controller.js:94-99 | a party the table's size is seatable; one more person is refused with the capacity message |
| `TablesController.ValidateSeatedTable` | back-end/src/tables/tables.controller.js:126-132 | passes exactly for an occupied table; otherwise "This table is not occupied" |
| `TablesController.LookupTable` | back-end/src/tables/tables.controller.js:107-121 | finds the row under the route's id, else a 404 naming the id |
| `TablesController.LookupReservation` | back-end/src/tables/tables.controller.js:53-74 | finds the row under `Number(reservation_id)`; a falsy id is a 400, an id with no row a 404 naming it as a template literal writes it (`Js.Display`) |
| `TablesController.SeatGuard` | back-end/src/tables/tables.controller.js:194-199 | the seat guards pass only with the table under the route's id and the reservation under `Number(reservation_id)`, for which the seat rules hold; every failure is a 400 or a 404 |
| `TablesController.UpdateStep` | back-end/src/tables/tables.controller.js:194-200 | a rejected seat request leaves the store unchanged; it succeeds exactly when every guard passes, answering 200 "seated" |
| `TablesController.SeatPipelineOrder` | back-end/src/tables/tables.controller.js:194-200 | a missing data object wins, then an unknown table (404), then a missing (400) or unknown (404) reservation id, then the seat rules |
| `TablesController.SeatSucceedsIff` | back-end/src/tables/tables.controller.js:79-121 | seating succeeds exactly when the table and reservation exist and the three seat rules hold |
| `TablesController.SeatEffect` | back-end/src/tables/tables.controller.js:164-175 | after a successful seat the table is occupied by that reservation, the reservation is seated, and no other row changes |
| `TablesController.FinishedReservationCanBeSeatedAgain` | back-end/src/tables/tables.controller.js:87-92 | a finished reservation passes the seat rules and becomes seated again |
| `TablesController.DestroyStep` | back-end/src/tables/tables.controller.js:201-205 | a rejected finish leaves the store unchanged; it succeeds exactly for an existing occupied table, and a free one gets "This table is not occupied" |
| `TablesController.FinishEffect` | back-end/src/tables/tables.controller.js:180-185 | after a successful finish the table is free with no reservation, its referenced reservation is finished, and nothing else changes |
| `TablesController.FinishTwice` | back-end/src/tables/tables.controller.js:126-132 | finishing the same table a second time fails as "not occupied" and changes nothing |
| `TablesController.FinishGuard` | back-end/src/tables/tables.controller.js:201-204 | the finish guards pass exactly for an existing occupied table, returning its row; an unknown table is a 404 naming it, a free one "This table is not occupied" |
| `TablesController.CreateStep` | back-end/src/tables/tables.controller.js:148-159 | only a successful create writes; it fails exactly when the data object is missing or the body check fails |
| `TablesController.CreateEffect` | back-end/src/tables/tables.controller.js:148-159 | the new table gets an unused id and the given capacity; it is occupied exactly when the reservation id is truthy, and then refers to that reservation, which becomes seated; otherwise it is free and no reservation changes, referring to none when the id is absent or null and to reservation 0 when a falsy id is present |
| `TablesController.CreateFaultIff` | back-end/src/tables/tables.controller.js:149-156 | a reservation id that is present (neither absent nor null) but whose `Number` is NaN reaches no write |
| `TablesController.CreatePreservesConsistent` | back-end/src/tables/tables.controller.js:148-159 | create keeps "a table refers to a reservation exactly when it is occupied" exactly unless it succeeds with a present falsy reservation id |
| `TablesController.ZeroIdCreatesFreeTableWithReference` | back-end/src/tables/tables.controller.js:149-156 | the body `{table_name: "ab", capacity: 4, reservation_id: 0}` creates a free table referring to reservation 0, which breaks the invariant |
| `TablesController.UpdatePreservesConsistent` | back-end/src/tables/tables.controller.js:164-175 | seating keeps the same invariant |
| `TablesController.DestroyPreservesConsistent` | back-end/src/tables/tables.controller.js:180-185 | finishing keeps the same invariant |
| `TablesController.Create` | back-end/src/tables/tables.controller.js:148-159 | the handler's writes, in order, produce the response and store that `CreateStep` gives |
| `TablesController.Update` | back-end/src/tables/tables.controller.js:164-175 | the guards then `occupy` and `updateReservation` produce the response and store that `UpdateStep` gives |
| `TablesController.Destroy` | back-end/src/tables/tables.controller.js:180-185 | the guards then `updateReservation` and `free` produce the response and store that `DestroyStep` gives |
| `ReservationCreate.Set` | front-end/src/reservations/ReservationCreate.js:78-82 | the named field takes the value and every other field is unchanged |
| `ReservationCreate.HandleChange` | front-end/src/reservations/ReservationCreate.js:77-83 | the named field takes the input, converted with `Number` for `people` and kept as a string otherwise; other fields are unchanged |
| `ReservationCreate.ClearedPeopleIsNotBlank` | front-end/src/reservations/ReservationCreate.js:81 | clearing the party size stores 0, which is not the empty string |
| `ReservationCreate.SpaceUnderscores` | front-end/src/reservations/ReservationCreate.js:123 | the label keeps the key's length and turns every underscore into a space |
| `ReservationCreate.BlankErrorsConcat` | front-end/src/reservations/ReservationCreate.js:120-126 | messages for earlier fields come before messages for later ones |
| `ReservationCreate.BlankErrorsEmptyIff` | front-end/src/reservations/ReservationCreate.js:119-128 | there is no message exactly when no field holds the empty string |
| `ReservationCreate.BlankMessageInjective` | front-end/src/reservations/ReservationCreate.js:123 | different fields have different messages |
| `ReservationCreate.BlankErrorsReportBlankFields` | front-end/src/reservations/ReservationCreate.js:119-128 | a field's message is present exactly when that field holds the empty string |
| `ReservationCreate.ValidateFields` | front-end/src/reservations/ReservationCreate.js:119-128 | appends one message per blank field in field order to the list it is given, and passes exactly when the whole list is empty |
| `ReservationCreate.NoBlankField` | front-end/src/reservations/ReservationCreate.js:119-128 | the form has no blank message exactly when none of its six fields is the empty string |
| `ReservationCreate.InitialFormAllBlank` | front-end/src/reservations/ReservationCreate.js:17-25 | the form as first shown reports all six fields as blank, in field order |
| `ReservationCreate.WindowByMinuteOfDay` | front-end/src/reservations/ReservationCreate.js:151-175 | the time checks, by minutes past midnight: before 10:30 not open, from 22:30 closed, after 21:30 too close to closing, else nothing |
| `ReservationCreate.WindowBoundaries` | front-end/src/reservations/ReservationCreate.js:151-175 | 10:29 is not open; 10:30 and 21:30 pass; 21:31 to 22:29 are too close to closing; 22:30 and later are closed |
| `ReservationCreate.DateMessagesDistinct` | front-end/src/reservations/ReservationCreate.js:138-175 | the five date messages are pairwise different, so each message names the check that produced it |
| `ReservationCreate.DateErrorsSplit` | front-end/src/reservations/ReservationCreate.js:138-175 | the messages are the closed-day one, then the past one, then at most one of the three time-window messages |
| `ReservationCreate.ClosedDayReported` | front-end/src/reservations/ReservationCreate.js:138-143 | the closed-day message appears exactly when the date is a Tuesday |
| `ReservationCreate.PastReported` | front-end/src/reservations/ReservationCreate.js:145-149 | the past message appears exactly when the time is before now |
| `ReservationCreate.WindowReportedOnce` | front-end/src/reservations/ReservationCreate.js:151-175 | at most one time-window message appears, and the number of messages is one per failed check, each check counted independently |
| `ReservationCreate.InvalidDatePasses` | front-end/src/reservations/ReservationCreate.js:133-178 | an unparsable date adds no message |
| `ReservationCreate.ValidateDate` | front-end/src/reservations/ReservationCreate.js:133-178 | appends the date messages to the list it is given and passes exactly when the whole list is empty |
| `ReservationCreate.HandleSubmit` | front-end/src/reservations/ReservationCreate.js:88-114 | with a blank field only the blank messages are shown and nothing is sent; otherwise only the date messages; the request is sent exactly when there is no message |
| `ReservationEdit.Pad2Digits` | front-end/src/reservations/ReservationCreate.js:51-54 | a month or day below 100 is written as two digits that read back as the number |
| `ReservationEdit.FourDigits` | front-end/src/reservations/ReservationCreate.js:51 | a four-digit year is written with four characters |
| `ReservationEdit.Pad2` | front-end/src/reservations/ReservationCreate.js:52-54 | `("0" + n).slice(-2)` always has two characters |
| `ReservationEdit.FormatDateRoundTrip` | front-end/src/reservations/ReservationCreate.js:50-54 | the date string reads back, as the year before the last two '-'-separated two-digit parts, as the same year, month and day |
| `ReservationEdit.FormatDateShape` | front-end/src/reservations/ReservationCreate.js:50-54 | a four-digit year gives the ten characters of `YYYY-MM-DD`, with '-' at positions 4 and 7 |
| `ReservationEdit.FillFields` | front-end/src/reservations/ReservationCreate.js:45-64 | the form is filled exactly for a found reservation whose status is booked |
| `ReservationEdit.PrefillContents` | front-end/src/reservations/ReservationCreate.js:31-43 | a prefilled form comes from the booked reservation that is the first whose id equals the route's id read with `Number` |
| `ReservationEdit.Prefill` | front-end/src/reservations/ReservationCreate.js:31-43 | the form is filled exactly when editing, the route has an id, and the reservation found for it is booked |
| `ReservationEdit.FillFieldsContents` | front-end/src/reservations/ReservationCreate.js:45-64 | the filled form holds the reservation's names, mobile number, date string, time and party size, and neither its date nor its party size is blank |
| `ReservationEdit.FilledFormPassesBlankCheck` | front-end/src/reservations/ReservationCreate.js:45-64 | a filled form passes the blank check exactly when the reservation's names, mobile number and time are non-empty |
| `SeatReservation.ValidateSeat` | front-end/src/reservations/SeatReservation.js:60-87 | collects exactly the pre-check's messages and passes exactly when there are none |
| `SeatReservation.UnknownTableOnlyError` | front-end/src/reservations/SeatReservation.js:70-71 | an unknown table gives the single "does not exist" message, whatever the reservations are |
| `SeatReservation.UnknownReservationOnlyError` | front-end/src/reservations/SeatReservation.js:72-73 | a known table with an unknown reservation gives the single "This reservation does not exist." |
| `SeatReservation.RuleErrorsIndependent` | front-end/src/reservations/SeatReservation.js:74-83 | the occupied and capacity messages each appear exactly when their rule is violated, both together when both are |
| `SeatReservation.RulesAgreeWithServer` | front-end/src/reservations/SeatReservation.js:74-83 | the server's seat rules pass exactly when the pre-check's rules pass and the reservation is not seated |
| `SeatReservation.FindIgnoresStatus` | front-end/src/reservations/SeatReservation.js:66-68 | looking a reservation up by id does not depend on statuses |
| `SeatReservation.SeatErrorsIgnoreStatus` | front-end/src/reservations/SeatReservation.js:60-87 | the pre-check's result does not depend on any reservation's status |
| `SeatReservation.PrecheckPassMeansServerSeats` | front-end/src/reservations/SeatReservation.js:47-52 | when the pre-check passes on lists read from the store, the seat request for the chosen table and reservation succeeds exactly when the reservation is not seated |
| `TableCreate.HandleChange` | front-end/src/tables/TableCreate.js:19-25 | the capacity is converted with `Number`, the name kept as typed, the other field untouched |
| `TableCreate.ValidateFields` | front-end/src/tables/TableCreate.js:47-58 | at most one message: "fill out all fields" exactly when the name or capacity is the empty string, otherwise the length message exactly for a name under two UTF-16 code units; passes exactly when neither fires; whatever the server accepts passes |
| `TableCreate.ClearedCapacityCaughtOnlyByServer` | front-end/src/tables/TableCreate.js:19-25 | clearing the capacity stores 0, which the form's blank check does not see and the server reports as empty |

## Left out

- Rendering, hooks, routing and navigation. This covers the JSX of the three
  forms and Dashboard, Routes, App, Lookup, TablesList and NewReservations.
  They hold no decision logic.
- The API client that carries form data to the server and the server's
  routing are not part of this model. This model assumes:
  - the seat page sends the chosen table as the route's table id and the route
    reservation id as `reservation_id` in the body;
  - the table form sends its state as the body.
- `list`, the reservation list endpoints and `reservations.service`. They pass
  data through to the database.
- The set-state calls, promise chains, abort controllers and error boundary.
  They carry no decisions. Their order in time is not modelled. Error
  messages are modelled as plain strings, not `{message}` objects.
- JavaScript `Date`. Parsing, time zones and `new Date()` are replaced by a
  `Moment`: weekday, hour, minute, and a timestamp compared with a `now`
  parameter. The prefill's date is taken after `new Date(...)` has split it
  into year, month and day. The time-zone shift that parsing a bare date can
  cause is not modelled.
- Js.StringToNumber: handles only "", decimal digits and a minus sign followed
  by digits. Every other string becomes NaN. JavaScript also accepts
  surrounding whitespace, hex, exponents and fractions.
- Js.JsValue: models numbers as integers plus NaN. Fractional numbers,
  Infinity, objects and arrays are not modelled.
- Fields of a request body other than `table_name`, `capacity` and
  `reservation_id` are not modelled. Neither is a data object that is present
  but falsy: it is read as missing.
- The server's route parameter `table_id` is taken as the integer key the
  store resolves it to.
- TablesService.Store: the store behind `occupy`, `free`, `updateReservation`
  and `create` is a pair of maps. It is not a database:
  - `free` is taken to clear the reservation reference as well as setting the
    status to free;
  - update queries that match no row change nothing;
  - the store's own errors are reduced to one case, `StoreFault`: a present
    reservation id that cannot be converted to a number on create;
  - on seat, a present id whose `Number` is NaN (such as `"abc"`) is taken to
    find no row in `readReservation`, so it is a 404. A database that refuses
    NaN for an integer column would answer it with a server error instead;
  - on create, `updateReservation` receives the raw `reservation_id`, and the
    model converts it with `Number` the way the store is assumed to coerce it.
    So `reservation_id: true` seats reservation 1 and `"5"` seats reservation 5.
    An integer column that refuses a boolean would make the first a server
    error.
- Writes are not atomic. Each request is modelled as running to completion,
  with no crash or concurrent request between its two writes.
- The sort of the tables list in the dashboard loader. It is a library sort.
