/**
 * The edit page's prefill of the reservation form: the reservation is looked up by the
 * route's id, and a booked one fills the form, its date written as `YYYY-MM-DD`.
 */
module ReservationEdit {
  import opened Wrappers
  import opened Js
  import opened Entities
  import opened ReservationCreate

  /** `("0" + n).slice(-2)`. */
  function Pad2(n: int): (r: string)
    ensures |r| == 2
  {
    SliceLast("0" + IntToString(n), 2)
  }

  lemma OneDigit(n: nat)
    requires n < 10
    ensures NatToString(n) == [DigitChar(n)]
  {
  }

  lemma TwoDigitNumber(n: nat)
    requires 10 <= n < 100
    ensures NatToString(n) == [DigitChar(n / 10), DigitChar(n % 10)]
  {
    OneDigit(n / 10);
  }

  /** A two-character digit string reads as tens and units. */
  lemma TwoDigits(a: char, b: char)
    requires IsDigit(a) && IsDigit(b)
    ensures IsDigits([a, b]) && ParseDigits([a, b]) == DigitValue(a) * 10 + DigitValue(b)
  {
    var s := [a, b];
    assert s[..1] == [a] && [a][..0] == [];
    assert ParseDigits([a]) == DigitValue(a);
    assert ParseDigits(s) == ParseDigits(s[..1]) * 10 + DigitValue(s[1]);
  }

  /** A number below 100 pads to its two decimal digits. */
  lemma Pad2Digits(n: int)
    requires 0 <= n < 100
    ensures IsDigits(Pad2(n)) && ParseDigits(Pad2(n)) == n
  {
    var t := "0" + IntToString(n);
    if n < 10 {
      OneDigit(n);
      assert t == ['0', DigitChar(n)];
      assert Pad2(n) == t;
      TwoDigits('0', DigitChar(n));
    } else {
      TwoDigitNumber(n);
      assert t == ['0', DigitChar(n / 10), DigitChar(n % 10)];
      assert Pad2(n) == [DigitChar(n / 10), DigitChar(n % 10)];
      TwoDigits(DigitChar(n / 10), DigitChar(n % 10));
    }
  }

  /** The prefill's date string: year, then month and day padded to two digits, joined by '-'. */
  function FormatDate(d: CalendarDate): string {
    IntToString(d.year) + "-" + Pad2(d.month) + "-" + Pad2(d.day)
  }

  /** Reads a date string back: the last two '-'-separated parts are two-digit month and
      day, and what comes before them is the year, read with `Number`. */
  function ParseDate(s: string): Option<CalendarDate> {
    if |s| < 6 || s[|s| - 6] != '-' || s[|s| - 3] != '-' then None
    else
      var year := StringToNumber(s[..|s| - 6]);
      var month, day := s[|s| - 5..|s| - 3], s[|s| - 2..];
      if year.Num? && IsDigits(month) && IsDigits(day) then
        Some(CalendarDate(year.n, ParseDigits(month), ParseDigits(day)))
      else None
  }

  /** The date string reads back as the date it was written from. */
  lemma FormatDateRoundTrip(d: CalendarDate)
    requires 0 <= d.month < 100 && 0 <= d.day < 100
    ensures ParseDate(FormatDate(d)) == Some(d)
  {
    var y, p, q := IntToString(d.year), Pad2(d.month), Pad2(d.day);
    var s := FormatDate(d);
    JoinParts(y, p, q);
    assert s[..|s| - 6] == y && s[|s| - 5..|s| - 3] == p && s[|s| - 2..] == q;
    Pad2Digits(d.month);
    Pad2Digits(d.day);
    IntToStringRoundTrip(d.year);
  }

  lemma FourDigits(n: nat)
    requires 1000 <= n <= 9999
    ensures |NatToString(n)| == 4
  {
    assert |NatToString(n / 10 / 10 / 10)| == 1;
    assert |NatToString(n / 10 / 10)| == 2;
    assert |NatToString(n / 10)| == 3;
  }

  /** A four-digit year gives the ten characters of `YYYY-MM-DD`, with '-' at positions 4 and 7. */
  lemma FormatDateShape(d: CalendarDate)
    requires 1000 <= d.year <= 9999
    ensures |FormatDate(d)| == 10
    ensures FormatDate(d)[4] == '-' && FormatDate(d)[7] == '-'
  {
    FourDigits(d.year);
    JoinParts(IntToString(d.year), Pad2(d.month), Pad2(d.day));
  }

  /** Where the parts of `y-p-q` sit, for two-character p and q. */
  lemma JoinParts(y: string, p: string, q: string)
    requires |p| == 2 && |q| == 2
    ensures var s := y + "-" + p + "-" + q;
      && |s| == |y| + 6
      && s[..|y|] == y && s[|y|] == '-' && s[|y| + 3] == '-'
      && s[|y| + 1..|y| + 3] == p && s[|y| + 4..] == q
  {
  }

  /** fillFields: only a found reservation that is still booked fills the form; the
      others leave it as it is (the page says only booked reservations can be edited). */
  function FillFields(found: Option<Reservation>): (r: Option<ReservationForm>)
    ensures r.Some? <==> found.Some? && found.value.status == Booked
  {
    if found.None? || found.value.status != Booked then None
    else
      var res := found.value;
      Some(ReservationForm(
        Str(res.firstName), Str(res.lastName), Str(res.mobileNumber),
        Str(FormatDate(res.reservationDate)), Str(res.reservationTime), Num(res.people)))
  }

  /** The edit page's effect: look the route's id up with `Number`, then fillFields. Nothing
      happens when not editing or when the route has no id. */
  function Prefill(edit: bool, reservations: seq<Reservation>, routeId: string): (r: Option<ReservationForm>)
    ensures r.Some? <==>
      && edit && routeId != ""
      && FindReservationById(reservations, ToNumber(Str(routeId))).Some?
      && FindReservationById(reservations, ToNumber(Str(routeId))).value.status == Booked
  {
    if !edit || routeId == "" then None
    else FillFields(FindReservationById(reservations, ToNumber(Str(routeId))))
  }

  /** A filled form holds the reservation's own values, with its date written as a padded
      date string and its party size as a number, so neither of those two is blank. */
  lemma FillFieldsContents(res: Reservation)
    requires res.status == Booked
    ensures FillFields(Some(res)) == Some(ReservationForm(
      Str(res.firstName), Str(res.lastName), Str(res.mobileNumber),
      Str(FormatDate(res.reservationDate)), Str(res.reservationTime), Num(res.people)))
    ensures var form := FillFields(Some(res)).value;
      Get(form, People) != Str("") && Get(form, ReservationDate) != Str("")
  {
    JoinParts(IntToString(res.reservationDate.year), Pad2(res.reservationDate.month), Pad2(res.reservationDate.day));
  }

  /** On the edit page the form is filled from the booked reservation whose id is the route's
      id read with `Number`, and holds that reservation's values. */
  lemma PrefillContents(edit: bool, reservations: seq<Reservation>, routeId: string)
    requires Prefill(edit, reservations, routeId).Some?
    ensures var r := FindReservationById(reservations, ToNumber(Str(routeId)));
      && edit && r.Some? && r.value.status == Booked
      && ToNumber(Str(routeId)) == Num(r.value.reservationId)
      && Prefill(edit, reservations, routeId) == FillFields(r)
  {
  }

  /** A prefilled form passes the blank check exactly when the reservation's names, mobile
      number and time are non-empty. */
  lemma FilledFormPassesBlankCheck(res: Reservation)
    requires res.status == Booked
    ensures BlankErrors(FillFields(Some(res)).value, FieldOrder) == [] <==>
      res.firstName != "" && res.lastName != "" && res.mobileNumber != "" && res.reservationTime != ""
  {
    FillFieldsContents(res);
    NoBlankField(FillFields(Some(res)).value);
  }
}
