/**
 * What the action handlers share: the request body fields they read, the JavaScript
 * truthiness test they apply to them, and, for the handlers that only read, the
 * reply as a status code and an optional JSON body.
 */
module ApiAction {
  import opened Wrappers

  /** `req.body.username` and `req.body.password`; None when the field is absent. */
  datatype Body = Body(username: Option<string>, password: Option<string>)

  /** A body field passes `!field` only when present and nonempty. */
  predicate Present(field: Option<string>)
    ensures Present(field) <==> field.Some? && |field.value| > 0
  {
    field.Some? && field.value != ""
  }

  /** The HTTP status sent and the JSON body, if any. */
  datatype Reply<T> = Reply(status: nat, body: Option<T>)
}
