/**
 * The slice of JavaScript value semantics the handlers depend on: query-string
 * values, truthiness, the `Number` coercion behind `isNaN` and `-`, and the
 * host functions the model does not look inside (`Number(s)`, `parseInt` and
 * pg-format's `format`), which are passed in as a `Host` record.
 */
module Js {
  import opened Wrappers

  /** A JavaScript number: a finite value or NaN. */
  datatype Number = Finite(value: real) | NaN

  /** The JavaScript values that flow through the handlers. */
  datatype Value = Str(s: string) | Num(n: Number) | Null | Undefined

  /**
   * Functions supplied by the runtime and by libraries:
   *  - `toNumber` is `Number(s)` on a string, the coercion `isNaN` and `-` apply;
   *  - `parseInt` is the global `parseInt` on a string;
   *  - `format` is pg-format's `format(template, ...args)`: the formatted text,
   *    or the message of the error it throws (too few arguments for the
   *    template's placeholders, for one).
   */
  datatype Host = Host(
    toNumber: string -> Number,
    parseInt: string -> Number,
    format: (string, seq<Value>) -> Result<string, string>)

  /**
   * JavaScript truthiness, as `if (x)` tests it: an empty string, 0, NaN, null
   * and undefined are falsy; every other string and number is truthy.
   */
  predicate Truthy(v: Value)
    ensures v == Str("") || v == Num(Finite(0.0)) || v == Num(NaN) || v == Null || v == Undefined
      ==> !Truthy(v)
    ensures (v.Str? && v.s != "") || (v.Num? && v.n.Finite? && v.n.value != 0.0) ==> Truthy(v)
  {
    match v
    case Str(s) => s != ""
    case Num(n) => n.Finite? && n.value != 0.0
    case Null => false
    case Undefined => false
  }

  /** The `ToNumber` coercion applied by `isNaN`, `-` and `*`. */
  function ToNumber(h: Host, v: Value): Number
  {
    match v
    case Str(s) => h.toNumber(s)
    case Num(n) => n
    case Null => Finite(0.0)
    case Undefined => NaN
  }

  /** The global `isNaN`. */
  predicate IsNaN(h: Host, v: Value)
  {
    ToNumber(h, v).NaN?
  }

  /** Numeric subtraction; NaN is absorbing. */
  function Sub(a: Number, b: Number): (r: Number)
    ensures r.NaN? <==> a.NaN? || b.NaN?
  {
    if a.Finite? && b.Finite? then Finite(a.value - b.value) else NaN
  }

  /** Numeric multiplication; NaN is absorbing. */
  function Mul(a: Number, b: Number): (r: Number)
    ensures r.NaN? <==> a.NaN? || b.NaN?
  {
    if a.Finite? && b.Finite? then Finite(a.value * b.value) else NaN
  }

  /** `req.query[key]`: the raw string when the parameter was sent, else `undefined`. */
  function Lookup(query: map<string, string>, key: string): (v: Value)
    ensures v == Undefined <==> key !in query
    ensures v != Undefined ==> v == Str(query[key])
  {
    if key in query then Str(query[key]) else Undefined
  }
}
