/**
 * The conversions of the JavaScript runtime the core calls on its values:
 * `String(v)`, `Number(v)`, `Math.trunc`, `new Date(s).toISOString()` and
 * `toLocaleString`. Number parsing, number printing, date parsing and locale
 * formatting are foreign to the model; they are supplied as a `Runtime`.
 */
module JsRuntime {
  import opened Types
  import opened Text

  datatype Runtime = Runtime(
    /** `Number(s)` for a string; `None` when the result is NaN. */
    numberOfText: string -> Option<real>,
    /** `String(n)` for a number. */
    textOfNumber: real -> string,
    /** `new Date(s).toISOString()`; `None` when the date is invalid. */
    isoDate: string -> Option<string>,
    /** `n.toLocaleString()`. */
    localeText: int -> string,
    /**
     * `String(o[name])` for a member `name` every object inherits from
     * `Object.prototype` (the text of a built-in function, or
     * "[object Object]" for `__proto__`).
     */
    inheritedText: string -> string)

  /** `String(v)`. */
  function ToText(v: JsValue, rt: Runtime): string {
    match v
    case Null => "null"
    case Undefined => "undefined"
    case Bool(b) => if b then "true" else "false"
    case Num(n) => rt.textOfNumber(n)
    case Str(s) => s
    case Bytes(bs) => BytesText(bs)
  }

  /** A `Uint8Array` prints its bytes in decimal, comma-separated. */
  function BytesText(bs: seq<bv8>): string {
    Join(seq(|bs|, i requires 0 <= i < |bs| => NatToString(bs[i] as nat)), ",")
  }

  /**
   * `Number(v)`; `None` stands for NaN. An array converts through its text,
   * as JavaScript's ToPrimitive does.
   */
  function ToNumber(v: JsValue, rt: Runtime): Option<real> {
    match v
    case Null => Some(0.0)
    case Undefined => None
    case Bool(b) => Some(if b then 1.0 else 0.0)
    case Num(n) => Some(n)
    case Str(s) => rt.numberOfText(s)
    case Bytes(_) => rt.numberOfText(ToText(v, rt))
  }

  predicate IsIntegral(r: real) {
    r.Floor as real == r
  }

  /** `Math.trunc`: drop the fractional part, rounding toward zero. */
  function Trunc(r: real): (t: real)
    ensures IsIntegral(t)
    ensures r >= 0.0 ==> 0.0 <= t <= r && r - t < 1.0
    ensures r < 0.0 ==> r <= t <= 0.0 && t - r < 1.0
  {
    if r >= 0.0 then
      var f := r.Floor;
      assert (f as real).Floor == f;
      f as real
    else
      var f := (-r).Floor;
      assert (-(f as real)).Floor == -f;
      -(f as real)
  }

  lemma TruncOfIntegral(r: real)
    requires IsIntegral(r)
    ensures Trunc(r) == r
  {
    if r < 0.0 {
      assert (-r).Floor == -(r.Floor);
    }
  }
}
