/**
 * The JavaScript values the spreadsheet helpers receive and return, the
 * errors they raise, and the parts of the host environment that the helpers
 * rely on but cannot be written down here (time zone, locale, helpers whose
 * code is not part of this model).
 */
module JsValues {

  /** Milliseconds since local midnight. */
  type TimeOfDay = ms: int | 0 <= ms < 86_400_000

  /**
   * A valid `Date` object, seen as a local calendar day (day 0 is
   * 1970-01-01, days counted in the proleptic Gregorian calendar) and a time
   * of day. Two dates have the same `getTime()` exactly when they are equal.
   */
  datatype DateTime = DateTime(day: int, ms: TimeOfDay)

  /**
   * A JavaScript value. `Num` is an exact real (NaN, the infinities and -0
   * are not represented); `Date` is a valid Date object; `Arr` an array;
   * `Obj` a plain object given by the properties visible on it.
   */
  datatype Value =
    | Null
    | Undefined
    | Bool(b: bool)
    | Num(n: real)
    | Str(s: string)
    | Date(d: DateTime)
    | Arr(elems: seq<Value>)
    | Obj(props: map<string, Value>)

  /**
   * What a call can throw: an `Error` with the source's own message, the
   * engine's TypeError and ReferenceError (their text is engine-specific),
   * and an exception raised by the spreadsheet service (`Range` calls).
   */
  datatype JsError = Error(message: string) | TypeError | ReferenceError | HostError

  /** The outcome of a call that returns a value or throws. */
  datatype Result<T> = Ok(value: T) | Throw(error: JsError)

  /** The outcome of a call that returns nothing or throws. */
  datatype Outcome = Done | Raised(error: JsError)

  datatype Option<T> = None | Some(value: T)

  /**
   * The environment: what the spreadsheet runtime decides and the helpers
   * only consume. Every property proved in this project holds for every
   * `Host`.
   *  - numberText: `String(x)` for a number that is not an integer below 1e21
   *    in magnitude (the text depends on the binary double behind `x`);
   *  - dateText: `String(d)` of a Date (depends on time zone and locale);
   *  - isoToLocal: `new Date(s)` for an ISO string, as a local day and time,
   *    or None for an Invalid Date (depends on the time zone);
   *  - isDDMMYYYY, parseDDMMYYYY: helpers the date normaliser calls, whose
   *    code is not part of this model;
   *  - engineMessage: the `message` of a TypeError or ReferenceError raised
   *    by the engine or of an error raised by the spreadsheet service.
   */
  datatype Host = Host(
    numberText: real -> string,
    dateText: DateTime -> string,
    isoToLocal: string -> Option<DateTime>,
    isDDMMYYYY: string -> bool,
    parseDDMMYYYY: string -> Option<DateTime>,
    engineMessage: JsError -> string)

  /** `e.message` of a thrown error. */
  function Message(host: Host, e: JsError): string
  {
    if e.Error? then e.message else host.engineMessage(e)
  }

  /** JavaScript truthiness (`!!v`). */
  predicate Truthy(v: Value)
  {
    match v
    case Null => false
    case Undefined => false
    case Bool(b) => b
    case Num(n) => n != 0.0
    case Str(s) => s != ""
    case _ => true
  }

  /** `v.name` for a value that is not null or undefined. */
  function Prop(v: Value, name: string): (r: Value)
    ensures !v.Obj? ==> r == Undefined
    ensures v.Obj? && name !in v.props ==> r == Undefined
  {
    if v.Obj? && name in v.props then v.props[name] else Undefined
  }

  /** `Number.isInteger(v)`. */
  predicate IsInteger(v: Value)
  {
    v.Num? && v.n.Floor as real == v.n
  }
}
