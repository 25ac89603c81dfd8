/** The response interceptor of the shared HTTP client: successful
    responses pass through, and every failure becomes an error whose message
    is the server's own message when it has one. */
module ApiClient {
  import opened Common
  import ErrorHandler
  import UserController

  const UnexpectedMessage := "An unexpected error occurred"

  /** A failed request: either no response at all (a network failure), or
      a response whose body may carry a string `message`. */
  datatype Failure = NoResponse | ErrorResponse(status: int, message: Option<string>)

  datatype Settled<+T> = Resolved(value: T) | Rejected(message: string)

  /** The fulfilment callback. */
  function OnFulfilled<T>(response: T): (r: Settled<T>)
    ensures r.Resolved? && r.value == response
  {
    Resolved(response)
  }

  /** The rejection callback: `response.data.message`, unless it is
      missing or empty, in which case a fixed message. */
  function OnRejected<T>(f: Failure): (r: Settled<T>)
    ensures r.Rejected?
    ensures r.message != ""
    ensures f.ErrorResponse? && f.message.Some? && f.message.value != "" ==> r.message == f.message.value
    ensures (f.NoResponse? || f.message.None? || f.message.value == "") ==> r.message == UnexpectedMessage
  {
    match f
    case ErrorResponse(_, Some(m)) => if m != "" then Rejected(m) else Rejected(UnexpectedMessage)
    case _ => Rejected(UnexpectedMessage)
  }

  /** The failure an error-handler response arrives as. A request made
      with `responseType: "blob"` (the CSV export) receives its error body
      as a Blob, which has no `message` property. */
  function FailureOf(h: ErrorHandler.Handled, blob: bool): Failure {
    match h
    case Respond(status, body) => ErrorResponse(status, if blob then None else Some(body.message))
    case HandlerThrows => ErrorResponse(500, None)
  }

  /** On a JSON request the page shows exactly the message the error
      handler wrote, unless that is empty; when the handler itself throws,
      or the request asked for a Blob, the fixed message. */
  lemma ServerMessageReachesPage<T>(h: ErrorHandler.Handled)
    ensures h.Respond? && h.body.message != "" ==> OnRejected<T>(FailureOf(h, false)).message == h.body.message
    ensures h.Respond? && h.body.message == "" ==> OnRejected<T>(FailureOf(h, false)).message == UnexpectedMessage
    ensures h.HandlerThrows? ==> OnRejected<T>(FailureOf(h, false)).message == UnexpectedMessage
    ensures OnRejected<T>(FailureOf(h, true)).message == UnexpectedMessage
  {}

  /** Exporting an empty store is answered 404 "No users found to export",
      but the export request asks for a Blob, so the page shows the fixed
      message instead. */
  lemma EmptyExportMessageLost<T>(db: UserController.Db, development: bool)
    requires db.users == []
    ensures var out := UserController.ExportToCsv(db);
      var h := ErrorHandler.HandleError(out.err, out.status, development);
      && out.Thrown?
      && h.Respond? && h.status == 404 && h.body.message == UserController.NoUsersMessage
      && OnRejected<T>(FailureOf(h, true)).message == UnexpectedMessage
  {
    UserController.ExportRows(db, development);
  }
}
