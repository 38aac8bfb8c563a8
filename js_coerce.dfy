/**
 * `String(v)`: the text JavaScript gives a value when it is converted to a
 * string (template literals, `String(...)`, `parseInt`'s argument).
 */
module JsCoerce {
  import opened JsValues
  import JsNumbers

  /**
   * `String(v)`. An array is the comma-joined text of its elements, with
   * null and undefined elements written as empty text; a plain object is
   * `[object Object]`.
   */
  function ToJsString(host: Host, v: Value): string
    decreases v
  {
    match v
    case Null => "null"
    case Undefined => "undefined"
    case Bool(b) => if b then "true" else "false"
    case Num(n) => JsNumbers.NumberToString(host, n)
    case Str(s) => s
    case Date(d) => host.dateText(d)
    case Arr(elems) =>
      JoinComma(seq(|elems|, i requires 0 <= i < |elems| =>
        if elems[i].Null? || elems[i].Undefined? then "" else ToJsString(host, elems[i])))
    case Obj(_) => "[object Object]"
  }

  /** `parts.join(",")`. */
  function JoinComma(parts: seq<string>): string
  {
    if parts == [] then ""
    else if |parts| == 1 then parts[0]
    else parts[0] + "," + JoinComma(parts[1..])
  }
}
