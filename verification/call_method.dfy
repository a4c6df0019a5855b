/**
 * `callMethod(method, params = {}, retryAttempts = 10)`: encode the
 * parameters, post them to the endpoint URL, and read the envelope; a failed
 * envelope with a truthy `retry_after` is retried after that many seconds
 * while the budget allows, any other failure rejects with a `TelegramError`
 * that the `onError` hook sees first.
 *
 * The server is a sequence of replies, the one at index `k` answering the
 * request of attempt `k`; a reply is an envelope or a fault thrown by the
 * exchange (a rejected `fetch`, a body that is not JSON).
 */
module BotApi {
  import opened Wrappers
  import opened Values
  import opened Encoding
  import opened Endpoint
  import opened TelegramErrors
  import opened Dispatch

  datatype Reply = Answer(envelope: Envelope) | Broken(fault: Fault)

  /** A POST to `url` with `body`, carrying `Content-Type: application/json` exactly when `json` holds. */
  datatype HttpRequest = HttpRequest(url: string, body: Body, json: bool)

  /** How the promise `callMethod` returns settles: with `data.result`, or rejected with an error. */
  datatype Outcome = Returned(result: Option<string>) | Threw(error: TelegramError)

  /** `params = {}` */
  function ParamsOrDefault(params: Option<Params>): Params {
    if params.Some? then params.value else []
  }

  /** `retryAttempts = 10` */
  function BudgetOrDefault(retryAttempts: Option<Budget>): Budget {
    if retryAttempts.Some? then retryAttempts.value else DefaultBudget
  }

  /** The request one attempt sends: the body, with the JSON content type exactly when it is not multipart. */
  function Post(url: string, body: Body): (r: HttpRequest)
    ensures r.url == url && r.body == body
    ensures r.json <==> body.JsonBody?
  {
    HttpRequest(url, body, body.JsonBody?)
  }

  /** `data.parameters && data.parameters.retry_after` is truthy. */
  predicate HasRetryAfter(env: Envelope) {
    env.parameters.Some? && env.parameters.value.retryAfter.Some? && env.parameters.value.retryAfter.value != 0
  }

  /** `retryAttempts === true || attempt < retryAttempts` */
  predicate WithinBudget(attempt: nat, budget: Budget) {
    budget.Unlimited? || attempt < budget.n
  }

  /** A failed envelope answering attempt `attempt` makes the loop try again. */
  predicate Retries(env: Envelope, attempt: nat, budget: Budget) {
    !env.ok && WithinBudget(attempt, budget) && HasRetryAfter(env)
  }

  /** The wait before the retry, in milliseconds: `retry_after * 1000`. */
  function DelayMs(env: Envelope): int
    requires HasRetryAfter(env)
  {
    env.parameters.value.retryAfter.value * 1000
  }

  /** The reply to attempt `k` ends the loop. */
  predicate Stops(reply: Reply, k: nat, budget: Budget) {
    reply.Broken? || !Retries(reply.envelope, k, budget)
  }

  /** Some reply ends the loop, so a call that gets past encoding settles. */
  predicate Answers(server: seq<Reply>, budget: Budget) {
    exists k :: 0 <= k < |server| && Stops(server[k], k, budget)
  }

  /** How the reply that ends the loop settles the call, before the `catch` block. */
  function Settle(reply: Reply, request: Request): Result<Option<string>, Thrown> {
    match reply
    case Broken(f) => Err(Failed(f))
    case Answer(env) => if env.ok then Ok(env.result) else Err(Raised(FromEnvelope(request, env)))
  }

  /**
   * How the call settles on the reply that ends the loop: with `data.result`,
   * or rejected with the error the `catch` block rethrows, which wraps a
   * fault once and passes a `TelegramError` through.
   */
  function Final(reply: Reply, request: Request): Outcome {
    match Settle(reply, request)
    case Ok(result) => Returned(result)
    case Err(t) => Threw(Wrap(t, request))
  }

  /**
   * The call. Each attempt encodes the parameters again and sends one
   * request; `delays` are the waits between attempts and `reported` the
   * errors handed to the `onError` hook.
   */
  method CallMethod(c: Client, name: string, params: Option<Params>, retryAttempts: Option<Budget>, server: seq<Reply>)
    returns (outcome: Outcome, sent: seq<HttpRequest>, delays: seq<int>, reported: seq<TelegramError>)
    requires Encoded(ParamsOrDefault(params)).Err? || Answers(server, BudgetOrDefault(retryAttempts))
    ensures var ps, budget := ParamsOrDefault(params), BudgetOrDefault(retryAttempts);
      if Encoded(ps).Err? then
        && sent == [] && delays == []
        && outcome == Threw(FromCause(Request(name, ps, 0, budget), Encoded(ps).error))
      else
        && 1 <= |sent| <= |server|
        && (forall k :: 0 <= k < |sent| ==> sent[k] == Post(Url(c.endpoint, c.token, name), Encoded(ps).value))
        && |delays| == |sent| - 1
        && (forall k :: 0 <= k < |sent| - 1 ==>
              server[k].Answer? && Retries(server[k].envelope, k, budget) && delays[k] == DelayMs(server[k].envelope))
        && Stops(server[|sent| - 1], |sent| - 1, budget)
        && outcome == Final(server[|sent| - 1], Request(name, ps, |sent| - 1, budget))
    ensures reported == if outcome.Threw? && ErrorHook(c) == CallsHook then [outcome.error] else []
    ensures AllowedRequests(|sent|, BudgetOrDefault(retryAttempts))
  {
    var ps := ParamsOrDefault(params);
    var budget := BudgetOrDefault(retryAttempts);
    var settled, attempt;
    settled, sent, delays, attempt := AttemptLoop(Url(c.endpoint, c.token, name), name, ps, budget, server);
    if settled.Ok? {
      outcome := Returned(settled.value);
      reported := [];
    } else {
      var error := Wrap(settled.error, Request(name, ps, attempt, budget));
      reported := if ErrorHook(c) == CallsHook then [error] else [];
      outcome := Threw(error);
    }
  }

  /**
   * The `while (true)` loop of the `try` block: each attempt encodes the
   * parameters and sends one request, until the encoding fails or a reply
   * ends the loop. `settled` is the result returned, or what reaches the
   * `catch` block, and `attempt` the counter at that point.
   */
  method AttemptLoop(url: string, name: string, ps: Params, budget: Budget, server: seq<Reply>)
    returns (settled: Result<Option<string>, Thrown>, sent: seq<HttpRequest>, delays: seq<int>, attempt: nat)
    requires Encoded(ps).Err? || Answers(server, budget)
    ensures Encoded(ps).Err? ==>
      && sent == [] && delays == [] && attempt == 0
      && settled == Err(Failed(Encoded(ps).error))
    ensures Encoded(ps).Ok? ==>
      && |sent| == attempt + 1 <= |server|
      && (forall k :: 0 <= k < |sent| ==> sent[k] == Post(url, Encoded(ps).value))
      && |delays| == attempt
      && (forall k :: 0 <= k < attempt ==>
            server[k].Answer? && Retries(server[k].envelope, k, budget) && delays[k] == DelayMs(server[k].envelope))
      && Stops(server[attempt], attempt, budget)
      && settled == Settle(server[attempt], Request(name, ps, attempt, budget))
    ensures AllowedRequests(|sent|, budget)
  {
    ghost var last: nat := 0;
    if Answers(server, budget) {
      last :| 0 <= last < |server| && Stops(server[last], last, budget);
    }
    attempt := 0;
    sent, delays := [], [];
    while true
      invariant |sent| == |delays| == attempt <= last
      invariant Encoded(ps).Ok? ==> last < |server| && Stops(server[last], last, budget)
      invariant Encoded(ps).Err? ==> attempt == 0
      invariant forall k :: 0 <= k < attempt ==> sent[k] == Post(url, Encoded(ps).value)
      invariant forall k :: 0 <= k < attempt ==>
        server[k].Answer? && Retries(server[k].envelope, k, budget) && delays[k] == DelayMs(server[k].envelope)
      decreases last - attempt
    {
      var body := Encode(ps);
      if body.Err? {
        return Err(Failed(body.error)), sent, delays, attempt;
      }
      sent := sent + [Post(url, body.value)];
      RequestsWithinBudget(server, budget, attempt);
      var reply := server[attempt];
      if reply.Broken? {
        return Err(Failed(reply.fault)), sent, delays, attempt;
      }
      var data := reply.envelope;
      if !data.ok {
        if WithinBudget(attempt, budget) && HasRetryAfter(data) {
          delays := delays + [DelayMs(data)];
          attempt := attempt + 1;
          continue;
        }
        return Err(Raised(FromEnvelope(Request(name, ps, attempt, budget), data))), sent, delays, attempt;
      }
      return Ok(data.result), sent, delays, attempt;
    }
  }

  // ----- the retry budget -----

  /** `count` requests fit the budget: any number for `true`, at most `max(n, 0) + 1` for a number `n`. */
  predicate AllowedRequests(count: nat, budget: Budget) {
    budget.Unlimited? || count <= (if budget.n < 0 then 0 else budget.n) + 1
  }

  /** Each retry needs `attempt < n`, so with a numeric budget `n` at most `max(n, 0)` retries happen in a row. */
  lemma {:induction false} RequestsWithinBudget(server: seq<Reply>, budget: Budget, attempts: nat)
    requires attempts <= |server|
    requires forall k :: 0 <= k < attempts ==> server[k].Answer? && Retries(server[k].envelope, k, budget)
    ensures AllowedRequests(attempts + 1, budget)
  {
    if attempts > 0 {
      assert Retries(server[attempts - 1].envelope, attempts - 1, budget);
    }
  }

  /** A budget of `0` means exactly one request, whatever the server says. */
  lemma ZeroBudgetSendsOnce(server: seq<Reply>)
    requires |server| > 0
    ensures Answers(server, Attempts(0))
    ensures Stops(server[0], 0, Attempts(0))
  {
    assert Stops(server[0], 0, Attempts(0));
  }

  /** With a numeric budget `n`, a server with more than `max(n, 0)` replies always ends the loop. */
  lemma NumericBudgetAnswers(server: seq<Reply>, n: int)
    requires |server| > (if n < 0 then 0 else n)
    ensures Answers(server, Attempts(n))
  {
    var k := if n < 0 then 0 else n;
    assert Stops(server[k], k, Attempts(n));
  }

  /** Only a failed envelope with a truthy `retry_after` is retried: success, a fault or an envelope without `retry_after` ends the loop. */
  lemma RetryNeedsRetryAfter(reply: Reply, k: nat, budget: Budget)
    ensures !Stops(reply, k, budget) <==>
      reply.Answer? && !reply.envelope.ok && HasRetryAfter(reply.envelope) && WithinBudget(k, budget)
  {
  }

  // ----- a stream on a retry -----

  /** What an attempt's encoding gives: a body or an error, or a promise that never settles. */
  datatype AttemptBody = Settles(body: Result<Body, Fault>) | NeverSettles

  predicate HasStream(ps: Params) {
    exists i :: 0 <= i < |ps| && ps[i].1.Stream?
  }

  /**
   * An attempt's encoding as written: the first attempt drains every stream
   * parameter, and a drained stream emits neither `end` nor `error` again, so
   * a later attempt waits on it forever.
   */
  function AttemptBodyAsWritten(ps: Params, attempt: nat): (r: AttemptBody)
    ensures attempt == 0 ==> r == Settles(Encoded(ps))
    ensures !HasStream(ps) ==> r == Settles(Encoded(ps))
  {
    if attempt > 0 && HasStream(ps) then NeverSettles else Settles(Encoded(ps))
  }

  /**
   * A photo sent from a stream: the first attempt encodes it, but if the
   * server asks for a retry, the second attempt never settles.
   */
  lemma RetriedStreamNeverSettles(chunk: Bytes)
    ensures var ps: Params := [("photo", Stream([chunk], Some("/tmp/wiki.png"), None))];
      && AttemptBodyAsWritten(ps, 0).body.Ok?
      && AttemptBodyAsWritten(ps, 1) == NeverSettles
  {
    var ps: Params := [("photo", Stream([chunk], Some("/tmp/wiki.png"), None))];
    assert ps[0].1.IsFileLike() && ps[0].1.Stream?;
    EncodedFailure(ps);
  }
}
