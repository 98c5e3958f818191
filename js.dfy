/** The few JavaScript value notions the backend relies on: `null`-or-value
    results, the JSON values a request body may carry, truthiness and the
    conversion a template literal applies to an interpolated value. */
module Js {

  /** A JavaScript result that is either `null` (None) or a value. */
  datatype Option<+T> = None | Some(value: T)

  /** A field of a decoded JSON request body. Strings are kept; every other
      present value (number, boolean, array, object) is only known by its
      truthiness and by what `String(v)` gives for it: a text, or None when
      the conversion throws (an object whose own `toString` and `valueOf`
      are not functions, such as `{"toString": 1}`). */
  datatype Value =
    | Undefined
    | Null
    | Text(s: string)
    | Other(truthy: bool, shown: Option<string>)

  /** JavaScript truthiness: `undefined`, `null` and `""` are falsy; a
      non-string value carries its own truthiness (`0`, `false` are falsy). */
  predicate Truthy(v: Value)
  {
    match v
    case Undefined => false
    case Null => false
    case Text(s) => s != ""
    case Other(t, _) => t
  }

  /** Truthiness of a `string | null` result, as `!x` tests it: the same
      test as on the request values, with null as `Null` and a string as
      `Text`. */
  predicate TruthyText(x: Option<string>)
    ensures TruthyText(x) == Truthy(if x.None? then Null else Text(x.value))
  {
    x.Some? && x.value != ""
  }

  /** The text a template literal `${v}` interpolates for `v`, or None
      when converting `v` to a string throws. Only a non-string can throw. */
  function Display(v: Value): (r: Option<string>)
  {
    match v
    case Undefined => Some("undefined")
    case Null => Some("null")
    case Text(s) => Some(s)
    case Other(_, shown) => shown
  }
}
