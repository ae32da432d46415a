/** The JavaScript values the client compares and prints: identifiers arrive
    as numbers from the server's JSON and as strings from the router's URL
    parameters, and `===` never equates a number with a string. */
module Js {
  import opened Text
  import Wrappers

  /** An identifier as JavaScript holds it; `===` on identifiers is equality of
      this datatype, so `NumId(5) != StrId("5")`. */
  datatype JsId = NumId(n: int) | StrId(s: string)

  /** JavaScript truthiness: `0` and `""` are falsy. */
  predicate IdTruthy(id: JsId) {
    match id
    case NumId(n) => n != 0
    case StrId(s) => s != ""
  }

  /** Truthiness of a string that may be absent (`null`/`undefined`). */
  predicate StrTruthy(s: Wrappers.Option<string>) {
    s.Some? && s.value != ""
  }

  /** `String(id)`: the text an identifier contributes to a URL. */
  function IdToString(id: JsId): string {
    match id
    case NumId(n) => IntToString(n)
    case StrId(s) => s
  }

  /** The message of the `TypeError` thrown when a property is read from
      `null` or `undefined`, in the wording of the V8 engine. */
  function NullAccessMessage(property: string): string {
    "Cannot read properties of null (reading '" + property + "')"
  }
}
