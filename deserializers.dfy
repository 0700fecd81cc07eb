// The lenient JSON field decoders of `deserializers.rs`: the Steam Web
// API sends most numbers as strings and flags as 0/1, while the
// desktop front end sends real numbers and booleans, so each decoder
// accepts both forms.

module Deserializers {
  import opened Common

  /**
   * A JSON number as `serde_json` keeps it: a non-negative integer (at
   * most `u64::MAX` once parsed), a negative integer (at least
   * `i64::MIN`), or a float, whose value no decoder here looks at. The
   * conversions below check the ranges themselves.
   */
  datatype Number = PosInt(u: nat) | NegInt(i: int) | Float

  /** A JSON value (`serde_json::Value`). */
  datatype Json =
    | JNull
    | JBool(b: bool)
    | JNumber(n: Number)
    | JString(s: string)
    | JArray(items: seq<Json>)
    | JObject(fields: map<string, Json>)

  /** Why a value was refused: the wrong JSON type, or a value out of range or unparsable. */
  datatype DecodeError = InvalidType(expected: string) | InvalidValue(expected: string)

  /** `Number::as_u64`. */
  function AsU64(n: Number): (r: Option<int>)
    ensures r.Some? <==> n.PosInt? && n.u <= U64Max
  {
    match n
    case PosInt(u) => if u <= U64Max then Some(u) else None
    case _ => None
  }

  /** `Number::as_i64`: a non-negative integer only when it fits an `i64`. */
  function AsI64(n: Number): (r: Option<int>)
    ensures r.Some? <==> (n.NegInt? && I64Min <= n.i < 0) || (n.PosInt? && n.u <= I64Max)
    ensures r.Some? ==> I64Min <= r.value <= I64Max
  {
    match n
    case PosInt(u) => if u <= I64Max then Some(u) else None
    case NegInt(i) => if I64Min <= i < 0 then Some(i) else None
    case Float => None
  }

  /** `bool_from_int`: a boolean as it is, or the numbers 0 and 1. */
  function BoolFromInt(v: Json): (r: Result<bool, DecodeError>)
    ensures r.Ok? <==> v.JBool? || v == JNumber(PosInt(0)) || v == JNumber(PosInt(1))
    ensures r.Ok? ==> r.value == (v == JBool(true) || v == JNumber(PosInt(1)))
  {
    match v
    case JBool(b) => Ok(b)
    case JNumber(n) =>
      if AsU64(n).Some? then
        if AsU64(n).value == 0 then Ok(false)
        else if AsU64(n).value == 1 then Ok(true)
        else Err(InvalidValue("0 or 1"))
      else Err(InvalidType("a boolean or u8 (0/1)"))
    case _ => Err(InvalidType("a boolean or u8 (0/1)"))
  }

  /** `u64_from_str_or_int`. */
  function U64FromStrOrInt(v: Json): (r: Result<int, DecodeError>)
    ensures r.Ok? ==> 0 <= r.value <= U64Max
    ensures !v.JString? && !v.JNumber? ==> r == Err(InvalidType("a string or number"))
  {
    match v
    case JString(s) => if ParseU64(s).Some? then Ok(ParseU64(s).value) else Err(InvalidValue("a string representing a u64"))
    case JNumber(n) => if AsU64(n).Some? then Ok(AsU64(n).value) else Err(InvalidValue("a u64"))
    case _ => Err(InvalidType("a string or number"))
  }

  /** `i64_from_str_or_int`. */
  function I64FromStrOrInt(v: Json): (r: Result<int, DecodeError>)
    ensures r.Ok? ==> I64Min <= r.value <= I64Max
    ensures !v.JString? && !v.JNumber? ==> r == Err(InvalidType("a string or number"))
  {
    match v
    case JString(s) => if ParseI64(s).Some? then Ok(ParseI64(s).value) else Err(InvalidValue("a string representing an i64"))
    case JNumber(n) => if AsI64(n).Some? then Ok(AsI64(n).value) else Err(InvalidValue("an i64"))
    case _ => Err(InvalidType("a string or number"))
  }

  /** `i32_from_str_or_int`: a number goes through `as_i64` and then `i32::try_from`. */
  function I32FromStrOrInt(v: Json): (r: Result<int, DecodeError>)
    ensures r.Ok? ==> I32Min <= r.value <= I32Max
    ensures r.Ok? ==> I64FromStrOrInt(v) == r
    ensures !v.JString? && !v.JNumber? ==> r == Err(InvalidType("a string or number"))
  {
    match v
    case JString(s) => if ParseI32(s).Some? then Ok(ParseI32(s).value) else Err(InvalidValue("a string representing an i32"))
    case JNumber(n) =>
      if AsI64(n).Some? && I32Min <= AsI64(n).value <= I32Max then Ok(AsI64(n).value)
      else Err(InvalidValue("an i32"))
    case _ => Err(InvalidType("a string or number"))
  }

  // ---------------------------------------------------------------
  // What the decoders promise.

  /** The JSON number `serde_json` produces for an integer. */
  function NumberOf(i: int): Number
  {
    if i >= 0 then PosInt(i) else NegInt(i)
  }

  /** An `i64` sent either as a number or as its decimal string decodes to itself. */
  lemma I64RoundTrip(i: int)
    requires I64Min <= i <= I64Max
    ensures I64FromStrOrInt(JNumber(NumberOf(i))) == Ok(i)
    ensures I64FromStrOrInt(JString(IntToString(i))) == Ok(i)
  {
    ParseI64IntToString(i);
  }

  /** An `i32` sent as a number or as its decimal string decodes to itself. */
  lemma I32RoundTrip(i: int)
    requires I32Min <= i <= I32Max
    ensures I32FromStrOrInt(JNumber(NumberOf(i))) == Ok(i)
    ensures I32FromStrOrInt(JString(IntToString(i))) == Ok(i)
  {
    ParseI64IntToString(i);
    ParseI32OfI64(IntToString(i));
  }

  /** `parse::<i32>` agrees with `parse::<i64>` on results in the `i32` range. */
  lemma ParseI32OfI64(s: string)
    requires ParseI64(s).Some? && I32Min <= ParseI64(s).value <= I32Max
    ensures ParseI32(s) == ParseI64(s)
  {
  }

  /** A `u64` sent as a number or as its decimal string decodes to itself. */
  lemma U64RoundTrip(u: nat)
    requires u <= U64Max
    ensures U64FromStrOrInt(JNumber(PosInt(u))) == Ok(u)
    ensures U64FromStrOrInt(JString(NatToString(u))) == Ok(u)
  {
    var s := NatToString(u);
    NatToStringValue(u);
    assert IsDigit(s[0]);
    assert ParseInteger(s, false) == Some(DigitsValue(s) as int);
  }

  /** Numbers the `i64` decoder accepts but `i32_from_str_or_int` refuses: one past each end of the range. */
  lemma I32RejectsWiderNumbers()
    ensures I64FromStrOrInt(JNumber(PosInt(I32Max + 1))) == Ok(I32Max + 1)
    ensures I32FromStrOrInt(JNumber(PosInt(I32Max + 1))) == Err(InvalidValue("an i32"))
    ensures I32FromStrOrInt(JNumber(NegInt(I32Min - 1))) == Err(InvalidValue("an i32"))
    ensures I32FromStrOrInt(JNumber(Float)).Err? && I64FromStrOrInt(JNumber(Float)).Err?
  {
  }
}
