/**
 * The error every failed call rejects with: a `TelegramError` built either
 * from a failed API envelope or from whatever was thrown on the way, carrying
 * the request context of the call.
 */
module TelegramErrors {
  import opened Wrappers
  import opened Values

  /** `retryAttempts`: `true` for no limit, or a number compared with the attempt counter. */
  datatype Budget = Unlimited | Attempts(n: int)

  const DefaultBudget: Budget := Attempts(10)

  /** `{ method, params, attempt, retryAttempts }` as the error records it. */
  datatype Request = Request(methodName: string, params: Params, attempt: nat, retryAttempts: Budget)

  /** The `parameters` object of a failed envelope, of which the loop reads `retry_after`, in seconds. */
  datatype ResponseParameters = ResponseParameters(retryAfter: Option<int>)

  /** The parsed response body: `ok`, `result` (as its JSON text), `error_code`, `description`, `parameters`. */
  datatype Envelope = Envelope(
    ok: bool,
    result: Option<string>,
    errorCode: Option<int>,
    description: Option<string>,
    parameters: Option<ResponseParameters>)

  datatype TelegramError = TelegramError(
    message: string,
    code: Option<int>,
    parameters: Option<ResponseParameters>,
    request: Request,
    cause: Option<Fault>)

  /** What reaches the `catch` block: a `TelegramError` thrown by the loop, or any other fault. */
  datatype Thrown = Raised(error: TelegramError) | Failed(fault: Fault)

  /**
   * `new TelegramError(request, { error: data })`: the message is the
   * envelope's description (empty when it has none), the code is
   * `error_code` unless that is missing or zero, and the parameters are the
   * envelope's; there is no cause.
   */
  function FromEnvelope(request: Request, env: Envelope): (e: TelegramError)
    ensures e.request == request && e.cause.None? && e.parameters == env.parameters
    ensures env.description.Some? ==> e.message == env.description.value
    ensures env.description.None? ==> e.message == ""
    ensures e.code.Some? <==> env.errorCode.Some? && env.errorCode.value != 0
    ensures e.code.Some? ==> e.code == env.errorCode
  {
    var code := if env.errorCode.Some? && env.errorCode.value != 0 then env.errorCode else None;
    TelegramError(if env.description.Some? then env.description.value else "", code, env.parameters, request, None)
  }

  /**
   * `new TelegramError(request, { cause })`: the cause's message, no code,
   * no parameters, and the cause kept.
   */
  function FromCause(request: Request, cause: Fault): (e: TelegramError)
    ensures e.request == request && e.message == cause.message
    ensures e.code.None? && e.parameters.None? && e.cause == Some(cause)
  {
    TelegramError(cause.message, None, None, request, Some(cause))
  }

  /** The `catch` block: a `TelegramError` is rethrown as it is, anything else is wrapped with the request. */
  function Wrap(t: Thrown, request: Request): (e: TelegramError)
    ensures t.Raised? ==> e == t.error
    ensures t.Failed? ==> e.cause == Some(t.fault) && e.request == request
  {
    match t
    case Raised(error) => error
    case Failed(fault) => FromCause(request, fault)
  }

  /** An error is never wrapped twice: wrapping what a wrap produced gives it back unchanged. */
  lemma WrapOnce(t: Thrown, request: Request, later: Request)
    ensures Wrap(Raised(Wrap(t, request)), later) == Wrap(t, request)
    ensures Wrap(t, request).cause.Some? <==> t.Failed? || t.error.cause.Some?
  {
  }

  /** Only a thrown fault carries a cause: an error built from an envelope never does. */
  lemma EnvelopeErrorHasNoCause(request: Request, env: Envelope, later: Request)
    ensures Wrap(Raised(FromEnvelope(request, env)), later).cause.None?
    ensures Wrap(Raised(FromEnvelope(request, env)), later).request == request
  {
  }
}
