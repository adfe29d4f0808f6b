/**
 * The reservation form: the blank-field check, the opening-hours check, the
 * `&&`-gated submit, the per-field change handler, and the edit prefill with
 * its `YYYY-MM-DD` date rendering.
 */
module ReservationCreate {
  import opened Wrappers
  import opened Js
  import opened Entities

  /** The form's fields, in the order the form state declares them. */
  datatype Field = FirstName | LastName | MobileNumber | ReservationDate | ReservationTime | People

  const FieldOrder: seq<Field> := [FirstName, LastName, MobileNumber, ReservationDate, ReservationTime, People]

  /** The field's key in the form state (and the input's `name`). */
  function Key(f: Field): string {
    match f
    case FirstName => "first_name"
    case LastName => "last_name"
    case MobileNumber => "mobile_number"
    case ReservationDate => "reservation_date"
    case ReservationTime => "reservation_time"
    case People => "people"
  }

  /** The form state. Every field holds a string, except `people`, which holds a number once edited. */
  datatype ReservationForm = ReservationForm(
    firstName: JsValue,
    lastName: JsValue,
    mobileNumber: JsValue,
    reservationDate: JsValue,
    reservationTime: JsValue,
    people: JsValue)

  const InitialForm := ReservationForm(Str(""), Str(""), Str(""), Str(""), Str(""), Str(""))

  function Get(form: ReservationForm, f: Field): JsValue {
    match f
    case FirstName => form.firstName
    case LastName => form.lastName
    case MobileNumber => form.mobileNumber
    case ReservationDate => form.reservationDate
    case ReservationTime => form.reservationTime
    case People => form.people
  }

  function Set(form: ReservationForm, f: Field, v: JsValue): (r: ReservationForm)
    ensures Get(r, f) == v
    ensures forall g :: g != f ==> Get(r, g) == Get(form, g)
  {
    match f
    case FirstName => form.(firstName := v)
    case LastName => form.(lastName := v)
    case MobileNumber => form.(mobileNumber := v)
    case ReservationDate => form.(reservationDate := v)
    case ReservationTime => form.(reservationTime := v)
    case People => form.(people := v)
  }

  /** handleChange: the named field takes the input's value, converted with `Number` for `people`. */
  function HandleChange(form: ReservationForm, name: Field, value: string): (r: ReservationForm)
    ensures Get(r, name) == if name == People then ToNumber(Str(value)) else Str(value)
    ensures forall g :: g != name ==> Get(r, g) == Get(form, g)
  {
    Set(form, name, if name == People then ToNumber(Str(value)) else Str(value))
  }

  /** Clearing the party-size input stores the number 0, which the blank check does not see as blank. */
  lemma ClearedPeopleIsNotBlank(form: ReservationForm)
    ensures Get(HandleChange(form, People, ""), People) == Num(0)
    ensures Get(HandleChange(form, People, ""), People) != Str("")
  {
  }

  //////////////////////////////////////////////////////////////////////////
  // validateFields
  //////////////////////////////////////////////////////////////////////////

  /** `s.split("_").join(" ")`: every underscore becomes a space. */
  function SpaceUnderscores(s: string): (r: string)
    ensures |r| == |s|
    ensures forall i :: 0 <= i < |s| ==> r[i] == (if s[i] == '_' then ' ' else s[i])
  {
    seq(|s|, i requires 0 <= i < |s| => if s[i] == '_' then ' ' else s[i])
  }

  const BlankSuffix := " cannot be left blank."

  function BlankMessage(f: Field): string {
    SpaceUnderscores(Key(f)) + BlankSuffix
  }

  /** The blank-field messages for `fields`, in their order. */
  function BlankErrors(form: ReservationForm, fields: seq<Field>): seq<string> {
    if fields == [] then []
    else (if Get(form, fields[0]) == Str("") then [BlankMessage(fields[0])] else []) + BlankErrors(form, fields[1..])
  }

  /** Messages for earlier fields come before those for later ones. */
  lemma {:induction false} BlankErrorsConcat(form: ReservationForm, xs: seq<Field>, ys: seq<Field>)
    ensures BlankErrors(form, xs + ys) == BlankErrors(form, xs) + BlankErrors(form, ys)
  {
    if xs != [] {
      assert (xs + ys)[0] == xs[0];
      assert (xs + ys)[1..] == xs[1..] + ys;
      BlankErrorsConcat(form, xs[1..], ys);
    } else {
      assert xs + ys == ys;
    }
  }

  /** No message at all exactly when no field holds the empty string. */
  lemma {:induction false} BlankErrorsEmptyIff(form: ReservationForm, fields: seq<Field>)
    ensures BlankErrors(form, fields) == [] <==> forall i :: 0 <= i < |fields| ==> Get(form, fields[i]) != Str("")
  {
    if fields != [] {
      BlankErrorsEmptyIff(form, fields[1..]);
      assert forall i :: 1 <= i < |fields| ==> fields[i] == fields[1..][i - 1];
    }
  }

  /** The whole form has no blank message exactly when none of its six fields is `""`. */
  lemma NoBlankField(form: ReservationForm)
    ensures BlankErrors(form, FieldOrder) == [] <==>
      && form.firstName != Str("") && form.lastName != Str("") && form.mobileNumber != Str("")
      && form.reservationDate != Str("") && form.reservationTime != Str("") && form.people != Str("")
  {
    BlankErrorsEmptyIff(form, FieldOrder);
    assert FieldOrder[0] == FirstName && FieldOrder[1] == LastName && FieldOrder[2] == MobileNumber;
    assert FieldOrder[3] == ReservationDate && FieldOrder[4] == ReservationTime && FieldOrder[5] == People;
  }

  /** Different fields give different messages. */
  lemma BlankMessageInjective(f: Field, g: Field)
    requires BlankMessage(f) == BlankMessage(g)
    ensures f == g
  {
    var a := SpaceUnderscores(Key(f));
    var b := SpaceUnderscores(Key(g));
    assert |a| == |b| by {
      assert |BlankMessage(f)| == |a| + |BlankSuffix|;
      assert |BlankMessage(g)| == |b| + |BlankSuffix|;
    }
    assert a == b by {
      assert a == BlankMessage(f)[..|a|] && b == BlankMessage(g)[..|b|];
    }
    assert |a| > 12 ==> a[12] == Key(f)[12] && b[12] == Key(g)[12];
  }

  lemma {:induction false} BlankMessageIn(form: ReservationForm, fields: seq<Field>, f: Field)
    ensures BlankMessage(f) in BlankErrors(form, fields) <==> f in fields && Get(form, f) == Str("")
  {
    if fields != [] {
      BlankMessageIn(form, fields[1..], f);
      if BlankMessage(f) == BlankMessage(fields[0]) {
        BlankMessageInjective(f, fields[0]);
      }
    }
  }

  /** Each field is reported exactly when it holds the empty string. */
  lemma BlankErrorsReportBlankFields(form: ReservationForm, f: Field)
    ensures BlankMessage(f) in BlankErrors(form, FieldOrder) <==> Get(form, f) == Str("")
  {
    BlankMessageIn(form, FieldOrder, f);
  }

  /** The form as the page first shows it reports all six fields as blank, in field order. */
  lemma InitialFormAllBlank()
    ensures BlankErrors(InitialForm, FieldOrder) == seq(6, i requires 0 <= i < 6 => BlankMessage(FieldOrder[i]))
    ensures forall f: Field :: BlankMessage(f) in BlankErrors(InitialForm, FieldOrder)
  {
    forall f: Field
      ensures BlankMessage(f) in BlankErrors(InitialForm, FieldOrder)
    {
      BlankErrorsReportBlankFields(InitialForm, f);
    }
  }

  /** validateFields: pushes one message per blank field onto `found`, and reports whether
      the whole list is still empty. */
  method ValidateFields(form: ReservationForm, found: seq<string>) returns (ok: bool, errors: seq<string>)
    ensures errors == found + BlankErrors(form, FieldOrder)
    ensures ok <==> errors == []
  {
    errors := found;
    for i := 0 to |FieldOrder|
      invariant errors == found + BlankErrors(form, FieldOrder[..i])
    {
      var field := FieldOrder[i];
      if Get(form, field) == Str("") {
        errors := errors + [BlankMessage(field)];
      }
      assert FieldOrder[..i + 1] == FieldOrder[..i] + [field];
      BlankErrorsConcat(form, FieldOrder[..i], [field]);
    }
    assert FieldOrder[..|FieldOrder|] == FieldOrder;
    ok := |errors| == 0;
  }

  //////////////////////////////////////////////////////////////////////////
  // validateDate
  //////////////////////////////////////////////////////////////////////////

  /** The requested date and time as the browser's clock reads it: weekday 0..6 (Sunday is 0),
      hour 0..23, minute 0..59, and a timestamp comparable with the current one. A date that
      cannot be parsed reads as `InvalidDate`, whose every comparison is false. */
  datatype Moment =
    | Instant(weekday: int, hour: int, minute: int, timestamp: int)
    | InvalidDate

  const ClosedOnTuesday := "Reservations cannot be made on a Tuesday (Restaurant is closed)."
  const InThePast := "Reservations cannot be made in the past."
  const NotOpenYet := "Reservation cannot be made: Restaurant is not open until 10:30AM."
  const ClosedAfterHours := "Reservation cannot be made: Restaurant is closed after 10:30PM."
  const TooCloseToClosing := "Reservation cannot be made: Reservation must be made at least an hour before closing (10:30PM)."

  /** The else-if chain over the time of day: at most one of the three window messages. */
  function WindowError(hour: int, minute: int): Option<string> {
    if hour < 10 || (hour == 10 && minute < 30) then Some(NotOpenYet)
    else if hour > 22 || (hour == 22 && minute >= 30) then Some(ClosedAfterHours)
    else if hour > 21 || (hour == 21 && minute > 30) then Some(TooCloseToClosing)
    else None
  }

  /** The window stated by minutes since midnight: open from 10:30, last booking 21:30, closed from 22:30. */
  lemma WindowByMinuteOfDay(hour: int, minute: int)
    requires 0 <= hour <= 23 && 0 <= minute <= 59
    ensures var t := 60 * hour + minute;
      WindowError(hour, minute) ==
        if t < 630 then Some(NotOpenYet)
        else if t >= 1350 then Some(ClosedAfterHours)
        else if t > 1290 then Some(TooCloseToClosing)
        else None
  {
  }

  lemma WindowBoundaries()
    ensures WindowError(10, 29) == Some(NotOpenYet)
    ensures WindowError(10, 30) == None && WindowError(21, 30) == None
    ensures forall m :: 31 <= m <= 59 ==> WindowError(21, m) == Some(TooCloseToClosing)
    ensures forall m :: 0 <= m <= 29 ==> WindowError(22, m) == Some(TooCloseToClosing)
    ensures forall h, m :: (h == 22 && 30 <= m <= 59) || (23 <= h && 0 <= m <= 59) ==>
      WindowError(h, m) == Some(ClosedAfterHours)
  {
  }

  function OptionToSeq(o: Option<string>): (r: seq<string>)
    ensures |r| <= 1
  {
    if o.Some? then [o.value] else []
  }

  /** The messages validateDate adds: closed day, past date, then the time window. */
  function DateErrors(when: Moment, now: int): seq<string> {
    match when
    case InvalidDate => []
    case Instant(weekday, hour, minute, timestamp) =>
      (if weekday == 2 then [ClosedOnTuesday] else [])
      + (if timestamp < now then [InThePast] else [])
      + OptionToSeq(WindowError(hour, minute))
  }

  /** The five date messages are all different. */
  lemma DateMessagesDistinct()
    ensures ClosedOnTuesday != InThePast
    ensures ClosedOnTuesday !in [NotOpenYet, ClosedAfterHours, TooCloseToClosing]
    ensures InThePast !in [NotOpenYet, ClosedAfterHours, TooCloseToClosing]
    ensures NotOpenYet != ClosedAfterHours && NotOpenYet != TooCloseToClosing && ClosedAfterHours != TooCloseToClosing
  {
    assert |ClosedOnTuesday| == 64 && |InThePast| == 40;
    assert |NotOpenYet| == 65 && |ClosedAfterHours| == 63 && |TooCloseToClosing| == 95;
  }

  /** The messages validateDate adds, split by the check that adds them. */
  lemma DateErrorsSplit(when: Moment, now: int)
    requires when.Instant?
    ensures DateErrors(when, now) ==
      (if when.weekday == 2 then [ClosedOnTuesday] else [])
      + (if when.timestamp < now then [InThePast] else [])
      + OptionToSeq(WindowError(when.hour, when.minute))
    ensures OptionToSeq(WindowError(when.hour, when.minute)) in
      [[], [NotOpenYet], [ClosedAfterHours], [TooCloseToClosing]]
  {
  }

  /** Tuesday always gives the closed-day message, and only Tuesday does. */
  lemma ClosedDayReported(when: Moment, now: int)
    requires when.Instant?
    ensures when.weekday == 2 <==> ClosedOnTuesday in DateErrors(when, now)
  {
    DateErrorsSplit(when, now);
    DateMessagesDistinct();
  }

  /** A time before now gives the past message, and only such a time does. */
  lemma PastReported(when: Moment, now: int)
    requires when.Instant?
    ensures when.timestamp < now <==> InThePast in DateErrors(when, now)
  {
    DateErrorsSplit(when, now);
    DateMessagesDistinct();
  }

  /** The else-if chain adds at most one time-window message, and the three kinds of
      message accumulate independently of one another. */
  lemma WindowReportedOnce(when: Moment, now: int)
    requires when.Instant?
    ensures var e := multiset(DateErrors(when, now));
      e[NotOpenYet] + e[ClosedAfterHours] + e[TooCloseToClosing] <= 1
    ensures |DateErrors(when, now)| ==
      (if when.weekday == 2 then 1 else 0) + (if when.timestamp < now then 1 else 0)
      + (if WindowError(when.hour, when.minute).Some? then 1 else 0)
  {
    DateErrorsSplit(when, now);
    DateMessagesDistinct();
    var tue := if when.weekday == 2 then [ClosedOnTuesday] else [];
    var past := if when.timestamp < now then [InThePast] else [];
    var win := OptionToSeq(WindowError(when.hour, when.minute));
    assert multiset(DateErrors(when, now)) == multiset(tue) + multiset(past) + multiset(win);
  }

  /** A date the browser cannot parse passes every date check. */
  lemma InvalidDatePasses(now: int)
    ensures DateErrors(InvalidDate, now) == []
  {
  }

  /** validateDate: pushes the date messages onto `found`, and reports whether the whole list is empty. */
  method ValidateDate(when: Moment, now: int, found: seq<string>) returns (ok: bool, errors: seq<string>)
    ensures errors == found + DateErrors(when, now)
    ensures ok <==> errors == []
  {
    errors := found;
    if when.Instant? {
      if when.weekday == 2 {
        errors := errors + [ClosedOnTuesday];
      }
      if when.timestamp < now {
        errors := errors + [InThePast];
      }
      if when.hour < 10 || (when.hour == 10 && when.minute < 30) {
        errors := errors + [NotOpenYet];
      } else if when.hour > 22 || (when.hour == 22 && when.minute >= 30) {
        errors := errors + [ClosedAfterHours];
      } else if when.hour > 21 || (when.hour == 21 && when.minute > 30) {
        errors := errors + [TooCloseToClosing];
      }
    }
    ok := |errors| == 0;
  }

  /** handleSubmit: `validateFields(found) && validateDate(found)`; the request is sent only when
      both pass. Blank-field and date messages are never reported together. */
  method HandleSubmit(form: ReservationForm, when: Moment, now: int) returns (submitted: bool, errors: seq<string>)
    ensures BlankErrors(form, FieldOrder) != [] ==> errors == BlankErrors(form, FieldOrder) && !submitted
    ensures BlankErrors(form, FieldOrder) == [] ==> errors == DateErrors(when, now)
    ensures submitted <==> errors == []
  {
    var fieldsOk;
    fieldsOk, errors := ValidateFields(form, []);
    submitted := false;
    if fieldsOk {
      submitted, errors := ValidateDate(when, now, errors);
    }
  }
}
