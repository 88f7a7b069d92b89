/** The JavaScript values the bookmark layer inspects, and the few language
    operations it applies to them: truthiness, loose equality with `null`,
    `Number(v)`, `Number.isInteger` and numeric comparison. */
module JsValues {

  /** The result of `Number(v)`. Finite numbers are exact reals: IEEE-754
      rounding is not represented, and -0 is not distinguished from 0. */
  datatype Number = Finite(x: real) | PosInfinity | NegInfinity | NaN

  /** A JavaScript value as it reaches the bookmark code: a field of a
      JSON-decoded request body (an absent key reads as `undefined`) or a
      column of a stored row. Objects and arrays are not modelled. */
  datatype Val = Undefined | Null | Bool(b: bool) | Str(s: string) | Num(n: Number)

  /** `v == null`: loose equality with null holds for null and undefined only. */
  predicate IsNullish(v: Val) {
    v.Undefined? || v.Null?
  }

  /** JavaScript truthiness, as in `if (v)`. */
  predicate Truthy(v: Val) {
    match v
    case Undefined => false
    case Null => false
    case Bool(b) => b
    case Str(s) => s != ""
    case Num(n) => n.PosInfinity? || n.NegInfinity? || (n.Finite? && n.x != 0.0)
  }

  /** `Number(v)`. The empty string converts to 0; converting any other
      string is JavaScript's StringToNumber, which is passed in as `parse`. */
  function ToNumber(v: Val, parse: string -> Number): Number {
    match v
    case Undefined => NaN
    case Null => Finite(0.0)
    case Bool(b) => Finite(if b then 1.0 else 0.0)
    case Str(s) => if s == "" then Finite(0.0) else parse(s)
    case Num(n) => n
  }

  /** `Number.isInteger(n)`: finite and without fractional part. */
  predicate IsInteger(n: Number) {
    n.Finite? && n.x.Floor as real == n.x
  }

  /** `n < k`; every comparison with NaN is false. */
  predicate LessThan(n: Number, k: real) {
    n.NegInfinity? || (n.Finite? && n.x < k)
  }

  /** `n > k`; every comparison with NaN is false. */
  predicate GreaterThan(n: Number, k: real) {
    n.PosInfinity? || (n.Finite? && n.x > k)
  }

  /** Every falsy value converts to 0 or to NaN, whatever the string
      conversion does with non-empty strings. */
  lemma FalsyIsZeroOrNaN(v: Val, parse: string -> Number)
    ensures !Truthy(v) ==> ToNumber(v, parse) == Finite(0.0) || ToNumber(v, parse) == NaN
  {
  }
}
