/**
 * The values a JavaScript `catch` clause can receive, as far as the error
 * handling code distinguishes them.
 */
module Exceptions {
  import opened Wrappers
  import opened ErrorCodes

  /** A thrown value:
      - `Coded`: a non-null object carrying a `code` key, taken to be an
        already normalised `ApiError`;
      - `JsError`: an `Error` instance without a `code` key, with its own
        message and, when the engine recorded one, its stack;
      - `Nullish`: `null` (`isNull`) or `undefined`; reading any property of
        it without `?.` throws a `TypeError`;
      - `Other`: anything else, with `text` the result of `String(value)`. */
  datatype Thrown =
    | Coded(error: ApiError)
    | JsError(message: string, stack: Option<string>)
    | Nullish(isNull: bool)
    | Other(text: string)

  /** `String(value)` of a nullish value. */
  function NullishText(isNull: bool): (text: string)
    ensures text == "null" || text == "undefined"
    ensures isNull <==> text == "null"
  {
    if isNull then "null" else "undefined"
  }

  /** `(value as ApiError).code`: the code a thrown value exposes, if any. */
  function CodeField(t: Thrown): Option<int>
  {
    match t
    case Coded(e) => Some(e.code)
    case JsError(_, _) => None
    case Nullish(_) => None
    case Other(_) => None
  }

  /** `(value as Error).message`: the message a thrown value exposes, if any. */
  function MessageField(t: Thrown): Option<string>
  {
    match t
    case Coded(e) => Some(e.message)
    case JsError(m, _) => Some(m)
    case Nullish(_) => None
    case Other(_) => None
  }
}
