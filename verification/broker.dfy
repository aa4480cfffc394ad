/** The two RPC queue handlers the dashboard service registers with the
    message broker: each runs a worker function on the request content and
    turns its outcome, a returned value or a thrown error, into the reply
    envelope `{ status, data, errorMessage }`. The broker transport,
    correlation ids and timeouts belong to the shared api utilities and are
    not part of this model; the worker functions are parameters. */
module DashboardBroker {
  import opened Wrappers

  /** What a worker call did: returned a value, or threw an error carrying
      a message. */
  datatype Outcome<T> = Returned(value: T) | Threw(message: string)

  /** The reply's `data` field: the initial `{}`, or a worker's result. */
  datatype Data<T> = EmptyObject | Payload(value: T)

  /** The reply envelope as it is published back to the caller. */
  datatype Envelope<T> = Envelope(status: string, data: Data<T>, errorMessage: string)

  const StatusSuccess := "success"
  const StatusError := "error"

  /** The two statuses, and the field each one leaves at its initial value:
      a success has no error message, an error has no data. */
  predicate WellFormed<T>(e: Envelope<T>) {
    && (e.status == StatusSuccess || e.status == StatusError)
    && (e.status == StatusSuccess ==> e.errorMessage == "")
    && (e.status == StatusError ==> e.data == EmptyObject)
  }

  /** The request content; only its `action` field is inspected here. */
  datatype Content<P> = Content(action: Option<string>, body: P)

  /** The worker a request to the workers queue is dispatched to. */
  datatype Worker = ImportRemove | ImportCreate

  const RemoveImportAction := "removeImport"

  function Route<P>(content: Content<P>): (w: Worker)
    ensures w == ImportRemove <==> content.action == Some(RemoveImportAction)
  {
    if content.action == Some(RemoveImportAction) then ImportRemove else ImportCreate
  }

  /** A handled request: which worker ran, and the reply. */
  datatype Handled<T> = Handled(worker: Worker, reply: Envelope<T>)

  /** The handler of the API-to-workers queue: `removeImport` requests go to
      `receiveImportRemove`, every other request to `receiveImportCreate`;
      the worker's result becomes `data`, or its error's message becomes
      `errorMessage` with `data` left as `{}`. */
  function HandleWorkersRequest<P, T>(content: Content<P>,
                                      receiveImportRemove: Content<P> -> Outcome<T>,
                                      receiveImportCreate: Content<P> -> Outcome<T>): (h: Handled<T>)
    ensures h.worker == ImportRemove <==> content.action == Some(RemoveImportAction)
    ensures WellFormed(h.reply)
    ensures var outcome := if h.worker == ImportRemove then receiveImportRemove(content)
                           else receiveImportCreate(content);
            (outcome.Returned? ==> h.reply == Envelope(StatusSuccess, Payload(outcome.value), "")) &&
            (outcome.Threw? ==> h.reply == Envelope(StatusError, EmptyObject, outcome.message))
  {
    var worker := Route(content);
    var outcome := if worker == ImportRemove then receiveImportRemove(content)
                   else receiveImportCreate(content);
    var reply := match outcome
      case Returned(v) => Envelope(StatusSuccess, Payload(v), "")
      case Threw(m) => Envelope(StatusError, EmptyObject, m);
    Handled(worker, reply)
  }

  /** The handler of the API-to-webhook-workers queue: the import result is
      discarded, so `data` is always `{}`; only the status and the error
      message report what happened. */
  function HandleWebhookRequest<P, U>(content: Content<P>,
                                      importFromWebhook: Content<P> -> Outcome<U>): (reply: Envelope<U>)
    ensures WellFormed(reply)
    ensures reply.data == EmptyObject
    ensures reply.status == StatusSuccess <==> importFromWebhook(content).Returned?
    ensures importFromWebhook(content).Threw? ==> reply.errorMessage == importFromWebhook(content).message
  {
    match importFromWebhook(content)
    case Returned(_) => Envelope(StatusSuccess, EmptyObject, "")
    case Threw(m) => Envelope(StatusError, EmptyObject, m)
  }

  /** How a caller reads a reply envelope: the data on success, the error
      message as a failure otherwise. */
  function ReadReply<T>(reply: Envelope<T>): (read: Result<Data<T>, string>) {
    if reply.status == StatusSuccess then Success(reply.data) else Failure(reply.errorMessage)
  }

  /** The envelope carries the worker's outcome to the caller unchanged: a
      returned value arrives as itself, a thrown error as its message. */
  lemma WorkersReplyRoundTrip<P, T>(content: Content<P>,
                                    receiveImportRemove: Content<P> -> Outcome<T>,
                                    receiveImportCreate: Content<P> -> Outcome<T>)
    ensures var h := HandleWorkersRequest(content, receiveImportRemove, receiveImportCreate);
            var outcome := if content.action == Some(RemoveImportAction) then receiveImportRemove(content)
                           else receiveImportCreate(content);
            ReadReply(h.reply) == match outcome
              case Returned(v) => Success(Payload(v))
              case Threw(m) => Failure(m)
  {
  }

  /** A webhook reply reads back as `{}` on success and as the error's
      message otherwise. */
  lemma WebhookReplyRoundTrip<P, U>(content: Content<P>, importFromWebhook: Content<P> -> Outcome<U>)
    ensures ReadReply(HandleWebhookRequest(content, importFromWebhook)) == match importFromWebhook(content)
              case Returned(_) => Success(EmptyObject)
              case Threw(m) => Failure(m)
  {
  }
}
