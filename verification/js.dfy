/** The JavaScript value semantics the handlers depend on: a request-body
    property that may be missing or `null`, truthiness, numeric comparison
    with `NaN`, template-literal interpolation, and thrown `Error` objects.
 */
module Js {
  import opened Wrappers

  /** A property of a parsed JSON body: absent (`undefined`), `null`, or a value. */
  datatype Field<T> = Undefined | Null | Defined(value: T)

  /** Truthiness of a string property: only a non-empty string is truthy. */
  predicate TruthyText(f: Field<string>) {
    f.Defined? && f.value != ""
  }

  /** Truthiness of a numeric property: only a non-zero number is truthy. */
  predicate TruthyNumber(f: Field<real>) {
    f.Defined? && f.value != 0.0
  }

  /** `Number(f)` as the relational operators apply it: `undefined` becomes
      `NaN` (None), `null` becomes 0. */
  function ToNumber(f: Field<real>): Option<real> {
    match f
    case Undefined => None
    case Null => Some(0.0)
    case Defined(x) => Some(x)
  }

  /** `f > bound`; every comparison with `NaN` is false. */
  predicate GreaterThan(f: Field<real>, bound: real) {
    ToNumber(f).Some? && ToNumber(f).value > bound
  }

  /** `f <= bound`; every comparison with `NaN` is false. */
  predicate AtMost(f: Field<real>, bound: real) {
    ToNumber(f).Some? && ToNumber(f).value <= bound
  }

  /** `${f}` inside a template literal. */
  function Interpolate(f: Field<string>): string {
    match f
    case Undefined => "undefined"
    case Null => "null"
    case Defined(s) => s
  }

  /** A thrown JavaScript error: its `name`, its optional `code`, its `message`. */
  datatype JsError = JsError(name: string, code: Option<string>, message: string)

  /** `new Error(message)`: named "Error", with no `code`. */
  function PlainError(message: string): JsError {
    JsError("Error", None, message)
  }
}

/** HTTP responses as the handlers build them with `res.status(…).json(…)`. */
module Http {
  import opened Wrappers

  /** A row returned by the database, kept opaque. */
  datatype Row = Row(json: string)

  /** The JSON bodies the handlers send. An absent optional member is a key
      that does not appear in the JSON. */
  datatype Body =
    | ErrorBody(error: string, code: Option<string>, details: Option<string>)
    | MessageBody(message: string)
    | RowBody(row: Option<Row>)
    | PageBody(rows: seq<Row>, page: int, limit: int, total: nat, totalPages: Option<int>)
    | ImageBody(message: string, imageUrl: string)

  datatype Response = Response(status: nat, body: Body)

  /** What an Express middleware does: call `next` once (and hand on a value),
      or answer the request itself and stop the chain. */
  datatype Flow<T> = Continue(value: T) | Halt(response: Response)

  /** A response carrying only an `error` string. */
  function Plain(status: nat, error: string): Response {
    Response(status, ErrorBody(error, None, None))
  }

  /** A response carrying an `error` string and a machine-readable `code`. */
  function Coded(status: nat, error: string, code: string): Response {
    Response(status, ErrorBody(error, Some(code), None))
  }
}
