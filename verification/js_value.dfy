/** The JavaScript values that decoded event arguments take, with the two
    conversions the routes apply to them: truthiness and `String(...)`. */
module JsValues {
  import opened Base
  import opened JsText

  /** A primitive JavaScript value. ABI-decoded integers are `bigint`s, which
      are primitives, so `0n` is falsy like `0`. */
  datatype JsValue = Undefined | Bool(b: bool) | Int(n: int) | Str(s: string)

  /** `!!v` */
  predicate Truthy(v: JsValue) {
    match v
    case Undefined => false
    case Bool(b) => b
    case Int(n) => n != 0
    case Str(s) => s != ""
  }

  /** `String(v)` */
  function ToStr(v: JsValue): string {
    match v
    case Undefined => "undefined"
    case Bool(b) => if b then "true" else "false"
    case Int(n) => IntToDecimal(n)
    case Str(s) => s
  }

  /** `String(v || fallback)`: a falsy value is replaced by the fallback string. */
  function StrOr(v: JsValue, fallback: string): (r: string)
    ensures Truthy(v) ==> r != ""
    ensures !Truthy(v) ==> r == fallback
    ensures v.Str? && Truthy(v) ==> r == v.s
    ensures v.Int? && v.n != 0 ==> r == IntToDecimal(v.n)
    ensures v == Bool(true) ==> r == "true"
  {
    if Truthy(v) then ToStr(v) else fallback
  }

  /** The integer an event amount stands for, read independently of the
      string route the code takes: a falsy amount counts as zero, a
      non-negative integer as itself, a digit string as its decimal value,
      and anything else has no amount. */
  function RawAmount(v: JsValue): Option<nat> {
    if !Truthy(v) then Some(0)
    else match v
      case Int(n) => if n >= 0 then Some(n) else None
      case Str(s) => if IsDigits(s) then Some(DigitsValue(s)) else None
      case _ => None
  }

  /** `String(v || "0")` passes `/^\d+$/` exactly when the value has a raw
      amount, and `BigInt` of that string is the raw amount. */
  lemma StrOrZeroIsRawAmount(v: JsValue)
    ensures IsDigits(StrOr(v, "0")) <==> RawAmount(v).Some?
    ensures IsDigits(StrOr(v, "0")) ==> DigitsValue(StrOr(v, "0")) == RawAmount(v).value
  {
    if Truthy(v) {
      match v
      case Int(n) => IntToDecimalDigits(n);
      case Str(s) =>
      case Bool(b) => assert !IsDigit(ToStr(v)[0]);
      case Undefined =>
    } else {
      assert DigitsValue("0") == DigitsValue("") * 10 + 0;
    }
  }
}
