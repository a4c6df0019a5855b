# A verified model of `TelegramBotAPI.callMethod`

The package exposes one class, `TelegramBotAPI`. A Proxy fronts every
instance: reading a property the object does not have gives a function that
calls the Bot API method of that name through `callMethod(method, params,
retryAttempts)`. Each attempt of `callMethod` does four things:

- It encodes the parameters. The body is JSON when no top-level value is
  file-like. Otherwise it is a multipart `FormData` built key by key with `set`
  and `delete`. The sidecar keys `k$name` and `k$type` override the name and
  MIME type of the file sent under `k`.
- It posts the body to the endpoint URL, where `{token}` and `{method}` have
  been substituted case-insensitively.
- It reads the response envelope. A failed envelope with a truthy
  `parameters.retry_after` is retried after that many seconds, while the retry
  budget allows it.
- Any other failure rejects with a `TelegramError` that carries the request
  context. The `onError` hook sees that error first.

The model is in eight modules, one per file:

| file | module | what it holds |
|---|---|---|
| `wrappers.dfy` | `Wrappers` | `Option` and `Result` |
| `values.dfy` | `Values` | JavaScript parameter values and their file-like classification; truthiness and JavaScript's logical or; the parameter object as a key-ordered sequence with distinct keys |
| `form_data.dfy` | `FormData` | the multipart form as a sequence of entries, with the `set` and `delete` operations of the FormData interface, including `set`'s conversion of a plain Blob into a File named `blob` |
| `encoding.dfy` | `Encoding` | the imperative encoding loops (`Encode`, `BuildForm`), proved against the reference body `Encoded`, with lemmas about what the form holds; `streamToFile` |
| `endpoint.dfy` | `Endpoint` | `replaceAll` with a global, case-insensitive regular expression and a string replacement, and the URL built from it |
| `telegram_error.dfy` | `TelegramErrors` | the `TelegramError` constructor, and the `catch` block's wrapping rule |
| `dispatch.dfy` | `Dispatch` | the client, the Proxy `get` trap, and the `onError` hook |
| `call_method.dfy` | `BotApi` | the retry loop `CallMethod`, with lemmas about the retry budget |

**Modelling choices:**

- **Parameters.** The parameter object is a sequence of (key, value) pairs in
  `for ... in` order.
- **Server.** The server is a sequence of replies; reply `k` answers attempt
  `k`. Each reply is an envelope, or a fault thrown by `fetch` or
  `response.json()`.
- **Delays and hook calls.** `CallMethod` does not sleep. It returns the delays
  it would wait, in milliseconds, and the errors handed to the `onError` hook.
- **Streams.** A Readable stream is a known list of chunks, an optional
  `path`, and an optional read error.

Three facts about `index.js` shape the model:

- Each attempt encodes the parameters again, inside the `while` loop.
- A sidecar key enumerated after its base key is sent as an ordinary text field.
- In JSON mode, `JSON.stringify(params)` keeps the sidecar keys.

## Model

| member | source | states |
|---|---|---|
| Encoding.Encode | index.js:47-82 | one attempt's encoding equals the reference body `Encoded`: JSON exactly when no key holds a file-like value, otherwise the form built by the `set`/`delete` loop, or the first stream error |
| Encoding.BuildForm | index.js:56-82 | after all keys, the loop's form is the reference form: the (key, field) items minus every item that a later key has as its `$name`/`$type` sidecar; a failing stream stops it with that stream's error |
| Encoding.JsonUnlessFileLike | index.js:49-56 | the body is `JSON.stringify(params)` of exactly the given parameters if and only if no top-level value is file-like; it is multipart if and only if some value is file-like and encoding succeeds |
| Encoding.EncodedFailure | index.js:73-74 | an attempt's encoding fails if and only if some value is a stream whose reading fails, and the error is that of the first such stream in key order |
| Encoding.FieldFor | index.js:65-80 | the field for one value fails if and only if the value is a failing stream, and with that stream's error |
| Encoding.Materialize | index.js:6-13 | `streamToFile`: a read error rejects with that error; otherwise the file holds every chunk in arrival order, has type `type`, and is named `name` if that is truthy, else by the stream path's basename |
| Encoding.BasenameOfJoin | index.js:10 | the basename of `dir/name` is `name` |
| Encoding.SidecarDeletes | index.js:58-64 | deleting the sidecars that are present gives the same form as deleting both sidecar names, and no entry named after a sidecar remains |
| Encoding.CollectStep | index.js:57-81 | one step of the loop (delete the key's sidecars, then `set` its field) turns the reference form of `n` items into that of `n + 1` |
| Encoding.FormUnique | index.js:57-81 | no two entries of a multipart form share a name |
| Encoding.FormHasField | index.js:57-81 | every key that no later key has as a sidecar is in the form with its field |
| Encoding.FormDropsSuperseded | index.js:58-64 | a key that a later key has as its `$name`/`$type` sidecar names no entry of the form |
| Encoding.FormOnlyFields | index.js:57-81 | every entry of the form is some non-superseded key with its own field |
| Encoding.BlobSetDirectly | index.js:66-67 | a Blob or File with no truthy `k$name` and no truthy `k$type` is handed to `set` as it is: a File is stored unchanged, and a Blob that is not a File is stored as a File named `blob` with the same bytes and type |
| Encoding.BinaryWrapped | index.js:69-71 | raw binary data, or a Blob or File with a truthy sidecar, is stored as a new File of the same bytes, named by a truthy `meta.name`, else `value.name`, and typed by a truthy `meta.type`, else `value.type` |
| Encoding.StreamMaterialized | index.js:73-74 | a stream in a multipart body did not fail, and it is stored as a File of all its chunks, named by `k$name` or the basename of its path, with type `k$type` |
| Encoding.ObjectAsJson | index.js:76-77 | `null`, arrays and other objects are stored as their JSON text |
| Encoding.ScalarAsText | index.js:78-79 | a primitive value is stored as its string form |
| Encoding.SidecarAfterBase | index.js:57-79 | for `{k: file, k$name: n}`, the file is sent renamed `n` with its own type, and `k$name` is also sent as a text field |
| Encoding.SidecarBeforeBase | index.js:57-74 | for `{k$name: n, k: blob}`, the blob is sent as a file named `n`, and no field named `k$name` remains |
| FormData.DeleteMembers | index.js:62 | `delete(k)` keeps exactly the entries not named `k` |
| FormData.DeleteAbsent | index.js:62 | deleting a name that no entry has changes nothing |
| FormData.SetSemantics | index.js:67 | after `set(k, p)`: entries with other names are unchanged; `(k, p)` is present; it is the only entry named `k`; if `k` was absent, it is appended |
| FormData.SetKeepsUnique | index.js:67 | `set` keeps the entry names unique |
| FormData.DeleteKeepsUnique | index.js:62 | `delete` keeps the entry names unique |
| Endpoint.Expand | index.js:84 | a replacement text without `$` is inserted literally |
| Endpoint.ReplaceFirstMatch | index.js:84 | a case-insensitive match after text without `{` is replaced, and the scan goes on after it |
| Endpoint.WholeMatch | index.js:84 | a template that is exactly one occurrence of the pattern, in any letter case, becomes the replacement |
| Endpoint.AnyCase | index.js:84 | `{TOKEN}` and `{Method}` are replaced like `{token}` and `{method}` |
| Endpoint.FixedEndpoint | index.js:84 | an endpoint without `{` is used as it is |
| Endpoint.DefaultUrl | index.js:84 | with the default endpoint, the URL is `https://api.telegram.org/bot<token>/<method>` |
| TelegramErrors.FromEnvelope | index.js:16-21 | an envelope error has the description as its message, `error_code` as its code unless it is missing or zero, the envelope's parameters, the request, and no cause |
| TelegramErrors.FromCause | index.js:16-21 | a wrapped fault has the fault's message, no code, no parameters, the request, and the fault as its cause |
| TelegramErrors.Wrap | index.js:105 | a `TelegramError` is rethrown as it is; any other fault is wrapped with the request and kept as the cause |
| TelegramErrors.WrapOnce | index.js:104-105 | wrapping is idempotent, and the result has a cause exactly when a fault was thrown or the error already had one |
| TelegramErrors.EnvelopeErrorHasNoCause | index.js:100-105 | an envelope error passes the `catch` block with no cause, keeping its own request |
| Dispatch.NewClient | index.js:29-31 | the constructor stores the token, and the default endpoint when none is given; no hook is set |
| Dispatch.Resolve | index.js:33-39 | a property resolves locally if and only if it is on the object or its prototype chain; any other name forwards to the remote method of that name |
| Dispatch.NewClientNames | index.js:29-39 | on a new client, a name is local if and only if it is `token`, `endpoint`, a class member or an `Object.prototype` member; every other name forwards under its own name |
| Dispatch.HookMakesOnErrorLocal | index.js:34-35 | assigning an `onError` hook makes `onError` local and changes how no other name resolves |
| Dispatch.ErrorHookAsWritten | index.js:106 | a set hook is always called |
| Dispatch.DirectCallWithoutHookSendsRequest | index.js:106 | as written, a failing `bot.callMethod(...)` on a client without a hook sends an `onError` request; a forwarded call does nothing |
| Dispatch.ErrorHook | index.js:106 | the intended hook acts if and only if a hook is set, and never sends a request |
| Dispatch.ErrorHookMatchesForwardedCall | index.js:106 | the intended hook agrees with the written code for calls made through a forwarding function |
| BotApi.Post | index.js:84-92 | each request posts the encoded body to the URL, with the JSON content type exactly when the body is not multipart |
| BotApi.CallMethod | index.js:44-108 | an encoding error throws a wrapped error before any request; otherwise every request carries the same body, each retry follows a failed envelope with `retry_after` within budget and waits `retry_after * 1000` ms, and the call returns `result` or throws for the reply that ends the loop; the hook sees the thrown error exactly when it is set; with a numeric budget `n`, at most `max(n, 0) + 1` requests are sent |
| BotApi.AttemptLoop | index.js:47-103 | the `while` loop: an encoding error stops it before any request; otherwise request `k` answers attempt `k` with the same body, every reply before the last asks for a retry within budget and sets the next delay to `retry_after * 1000` ms, and the last reply ends the loop and decides the result or the error thrown |
| BotApi.RequestsWithinBudget | index.js:94-98 | when the first `m` replies all caused retries, `m + 1` requests fit the budget: with a numeric budget `n`, `m <= max(n, 0)` |
| BotApi.ZeroBudgetSendsOnce | index.js:95 | with a budget of `0`, the first reply always ends the loop |
| BotApi.NumericBudgetAnswers | index.js:95-98 | with a numeric budget, a server with more than `max(n, 0)` replies always ends the loop |
| BotApi.RetryNeedsRetryAfter | index.js:94-99 | a reply causes a retry if and only if it is a failed envelope with a truthy `retry_after` and the budget allows one |
| BotApi.AttemptBodyAsWritten | index.js:47-74 | as written, the first attempt and any attempt without a stream get the ordinary encoding |
| BotApi.RetriedStreamNeverSettles | index.js:47-74 | as written, a stream parameter is encoded on the first attempt, but the encoding of a retry never settles |

## Left out

- `fetch`, `response.json()` and the HTTP exchange are I/O. The server is a given sequence of replies.
- `setTimeout` is left out; the delays are returned instead.
- The `data`/`end`/`error` event protocol of `streamToFile` is left out. A stream is its chunk list, its path and its read error.
- Dispatch.Resolve: the object's own names are `token`, `endpoint` and an assigned `onError`. Any other property assigned to the instance (`bot.foo = 1`) lands on the target and is local too; the model does not track it.
- Dispatch.ErrorHook: an `onError` assigned a falsy value is local but never called. The model treats any assigned hook as a function that is called.
- The Proxy's reflection is left out, and so is the stack-trace rewrite of line 18. Only the rule of which names are local is kept.
- BotApi.CallMethod: requires that some reply ends the loop (or that encoding fails). With an unlimited budget and a server that always asks for a retry, the source loops forever, and the model does not describe that run.
- BotApi.CallMethod: it models a call made through a forwarding function, where `this` is the target. On a direct `bot.callMethod(...)` without a hook, the source also sends an `onError` request; that path is `Dispatch.ErrorHookAsWritten`, and `CallMethod` uses the corrected `Dispatch.ErrorHook` (see Findings).
- BotApi.CallMethod: on a retry it sends the first attempt's body, as if every stream could be read again. In the source, re-reading a drained stream never settles; that path is `BotApi.AttemptBodyAsWritten`, and `CallMethod` is the corrected behaviour (see Findings).
- BotApi.AttemptLoop: on a retry it encodes a stream parameter again from its chunks and sends the same body as the first attempt. In the source, the second `streamToFile` on a drained stream never settles; that path is `BotApi.AttemptBodyAsWritten` (see Findings).
- BotApi.AttemptLoop: requires that the encoding fails or some reply ends the loop. With an unlimited budget and a server that always asks for a retry, the source loops forever, and the model does not describe that run.
- BotApi.CallMethod: the hook is a notification only. A hook that throws, replacing the error, is not modelled.
- BotApi.CallMethod: the error's `params` is the parameter object after defaults. A `retryAttempts` that is neither `true` nor a number is not modelled.
- Numbers are integers. Floating-point numbers and their `String()` forms are not modelled.
- Parameter keys are in the given order. The rule that `for ... in` lists integer-like keys first is not modelled, nor are symbol keys, inherited enumerable keys, or a non-object `params`.
- Encoding.Materialize: the `File` constructor's conversion of `name` and `type` to strings, and its lowercasing of `type`, are not modelled. The file keeps the JavaScript values it was given.
- Encoding.BinaryWrapped: the same conversion at `new File([value], meta.name || value.name, ...)` is not modelled. For `{doc: blob, doc$type: 'image/png'}`, the source sends the file name `"undefined"`, where the model keeps the value `undefined`.
- Encoding.FieldFor: the same `File` constructor conversion, for every file it builds, is not modelled.
- A structured value is its JSON text as given. `JSON.stringify` throwing (cycles, BigInt) or skipping functions is not modelled.
- Only POSIX path separators are modelled, not the Windows rules of `path.basename`.
- Encoding.Encode: the same stream object under two keys is modelled as two independent streams.
- The token and method name are strings; a non-string token is not converted.

## Findings

| source | as written | input that shows it | evidently intended | confidence | as-written member | corrected member |
|---|---|---|---|---|---|---|
| index.js:106 | `this.onError && this.onError(error)` reads `onError` through the Proxy when `bot.callMethod(...)` is called directly. On a client without a hook, that gives a forwarding function, which is truthy, so a request named `onError` is sent | a client with no `onError`, calling `bot.callMethod('getMe')` while the request fails (`Dispatch.DirectCallWithoutHookSendsRequest`) | the hook is called only when one is set, and no request is sent | not executed | Dispatch.ErrorHookAsWritten | Dispatch.ErrorHook |
| index.js:47-74 | the parameters are encoded again on every attempt. A Readable drained by the first attempt emits neither `end` nor `error` again, so `streamToFile` on a retry never settles | `sendPhoto({photo: fs.createReadStream(path)})` answered with `retry_after` (`BotApi.RetriedStreamNeverSettles`) | every retry sends the body of the first attempt | not executed | BotApi.AttemptBodyAsWritten | BotApi.CallMethod |
