/**
 * The few pieces of JavaScript semantics the validators depend on:
 * loosely typed values, truthiness (`!v`), `Number(v)`, string conversion
 * inside template literals, and `Array.prototype.find`.
 * Numbers are integers; `NaN` is a value of its own.
 */
module Js {
  import opened Wrappers

  /** A value as it can arrive in a request body or sit in a form's state. */
  datatype JsValue = Undefined | Null | Bool(b: bool) | Num(n: int) | NaN | Str(s: string)

  /** The values JavaScript treats as false: `undefined`, `null`, `false`, `0`, `NaN` and `""`. */
  const Falsy: set<JsValue> := {Undefined, Null, Bool(false), Num(0), NaN, Str("")}

  /** JavaScript truthiness: `!v` holds exactly when `Truthy(v)` does not. */
  predicate Truthy(v: JsValue)
    ensures Truthy(v) <==> v !in Falsy
  {
    match v
    case Undefined => false
    case Null => false
    case NaN => false
    case Bool(b) => b
    case Num(n) => n != 0
    case Str(s) => s != ""
  }

  predicate IsDigit(c: char) {
    '0' <= c <= '9'
  }

  predicate IsDigits(s: string) {
    forall i :: 0 <= i < |s| ==> IsDigit(s[i])
  }

  function DigitValue(c: char): nat
    requires IsDigit(c)
  {
    (c as int) - ('0' as int)
  }

  function DigitChar(d: nat): (c: char)
    requires d < 10
    ensures IsDigit(c) && DigitValue(c) == d
  {
    (('0' as int) + d) as char
  }

  /** The value of a string of decimal digits, most significant first. */
  function ParseDigits(s: string): nat
    requires IsDigits(s)
  {
    if s == [] then 0 else ParseDigits(s[..|s| - 1]) * 10 + DigitValue(s[|s| - 1])
  }

  /** The decimal rendering of a natural number, without leading zeros. */
  function NatToString(n: nat): (s: string)
    ensures |s| >= 1 && IsDigits(s)
    ensures n < 10 <==> |s| == 1
  {
    if n < 10 then [DigitChar(n)] else NatToString(n / 10) + [DigitChar(n % 10)]
  }

  /** `String(n)` for an integer: a minus sign, then the digits of its magnitude. */
  function IntToString(n: int): (s: string)
    ensures n >= 0 ==> IsDigits(s) && |s| >= 1
    ensures n < 0 ==> |s| >= 2 && s[0] == '-' && IsDigits(s[1..])
  {
    if n < 0 then "-" + NatToString(-n) else NatToString(n)
  }

  lemma {:induction false} ParseNatToString(n: nat)
    ensures ParseDigits(NatToString(n)) == n
  {
    var s := NatToString(n);
    if n >= 10 {
      assert s[..|s| - 1] == NatToString(n / 10);
      ParseNatToString(n / 10);
    } else {
      assert s[..|s| - 1] == [];
    }
  }

  /** `Number(s)` for a string: empty is 0, plain decimal digits with an optional minus sign
      are that integer, anything else is NaN. */
  function StringToNumber(s: string): JsValue {
    if s == "" then Num(0)
    else if IsDigits(s) then Num(ParseDigits(s))
    else if |s| > 1 && s[0] == '-' && IsDigits(s[1..]) then Num(-(ParseDigits(s[1..]) as int))
    else NaN
  }

  /** `Number(v)`: the result is always a number (possibly NaN). */
  function ToNumber(v: JsValue): (r: JsValue)
    ensures r.Num? || r.NaN?
    ensures v.Num? ==> r == v
  {
    match v
    case Undefined => NaN
    case Null => Num(0)
    case Bool(b) => Num(if b then 1 else 0)
    case Num(_) => v
    case NaN => NaN
    case Str(s) => StringToNumber(s)
  }

  /** Rendering an integer and reading it back with `Number` gives the integer. */
  lemma IntToStringRoundTrip(n: int)
    ensures ToNumber(Str(IntToString(n))) == Num(n)
  {
    if n < 0 {
      NegativeRoundTrip(NatToString(-n), -n);
    } else {
      ParseNatToString(n);
    }
  }

  lemma NegativeRoundTrip(digits: string, m: nat)
    requires digits == NatToString(m) && m > 0
    ensures StringToNumber("-" + digits) == Num(-(m as int))
  {
    var s := "-" + digits;
    assert s[0] == '-' && !IsDigit(s[0]);
    assert s[1..] == digits;
    ParseNatToString(m);
  }

  /** How a value is written into a template literal (`${v}`). */
  function Display(v: JsValue): string {
    match v
    case Undefined => "undefined"
    case Null => "null"
    case Bool(b) => if b then "true" else "false"
    case Num(n) => IntToString(n)
    case NaN => "NaN"
    case Str(s) => s
  }

  /** A character outside the Basic Multilingual Plane: JavaScript stores it as a surrogate pair. */
  predicate IsAstral(c: char) {
    c as int >= 0x1_0000
  }

  /** `s.length`: JavaScript counts UTF-16 code units, so an astral character counts twice. */
  function Utf16Length(s: string): (n: nat)
    ensures |s| <= n <= 2 * |s|
    ensures n == |s| <==> forall i :: 0 <= i < |s| ==> !IsAstral(s[i])
  {
    if s == [] then 0
    else Utf16Length(s[..|s| - 1]) + (if IsAstral(s[|s| - 1]) then 2 else 1)
  }

  /** `s.slice(-k)`: the last k characters, or all of s when it is shorter. */
  function SliceLast(s: string, k: nat): (r: string)
    ensures |r| == if |s| < k then |s| else k
    ensures r == s[|s| - |r|..]
  {
    if |s| < k then s else s[|s| - k..]
  }

  /** `xs.findIndex(p)`: the position of the first element satisfying p. */
  function FindIndex<T>(xs: seq<T>, p: T -> bool): (r: Option<nat>)
    ensures r.None? <==> forall i :: 0 <= i < |xs| ==> !p(xs[i])
    ensures r.Some? ==> r.value < |xs| && p(xs[r.value])
    ensures r.Some? ==> forall j :: 0 <= j < r.value ==> !p(xs[j])
  {
    if xs == [] then None
    else if p(xs[0]) then Some(0)
    else match FindIndex(xs[1..], p)
      case None => None
      case Some(i) => Some(i + 1)
  }

  /** `xs.find(p)`: the first element satisfying p, or nothing (`undefined`). */
  function Find<T>(xs: seq<T>, p: T -> bool): (r: Option<T>)
    ensures r.None? <==> forall i :: 0 <= i < |xs| ==> !p(xs[i])
    ensures r.Some? ==> exists i :: 0 <= i < |xs| && xs[i] == r.value && p(xs[i]) && forall j :: 0 <= j < i ==> !p(xs[j])
  {
    match FindIndex(xs, p)
    case None => None
    case Some(i) => Some(xs[i])
  }
}
