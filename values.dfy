/**
 * Values that cross the HTTP boundary of the dashboard server: optional
 * request fields, the few JSON values whose JavaScript truthiness or `typeof`
 * the handlers inspect, and timestamps.
 */
module Values {

  datatype Option<+T> = None | Some(value: T)

  /** ISO-8601 timestamps, stored as text; the clock is a parameter of every operation. */
  type Timestamp = string

  /** A JSON value as the body parser hands it to a handler. `Composite` stands
      for any object or array: the handlers only ask whether it is truthy. */
  datatype JsValue = Undefined | Null | Bool(b: bool) | Num(n: real) | Str(s: string) | Composite

  /** JavaScript truthiness (NaN, the only other falsy number, is not a real). */
  predicate Truthy(v: JsValue) {
    match v
    case Undefined => false
    case Null => false
    case Bool(b) => b
    case Num(n) => n != 0.0
    case Str(s) => s != ""
    case Composite => true
  }

  /** Truthiness of an optional string field: present and not empty. */
  predicate Present(field: Option<string>) {
    field.Some? && field.value != ""
  }

  /** `typeof v === "number"` */
  predicate IsNumber(v: JsValue) {
    v.Num?
  }
}
